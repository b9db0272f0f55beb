/**
  The temp directory (cache/src/temp.rs). Each block has three file names: the file itself, a pending file that
  is written first and a backup of the previous content. A write is a sequence of file operations, any of which
  may fail; `WriteFaults` says which.
*/
module Temp {
  import opened Common

  type Files = map<nat, seq<byte>>

  /** Which of the file operations of one `write_block` fail. `partial` is what a failing write left behind. */
  datatype WriteFaults = WriteFaults(
    injected: bool,
    clearPending: bool,
    clearBackup: bool,
    create: bool,
    write: bool,
    partial: seq<byte>,
    sync: bool,
    toBackup: bool,
    intoPlace: bool,
    restore: bool,
    dropBackup: bool,
    dropPending: bool)

  /** What a write did to the block's file: replaced it, left it as it was, or lost it. */
  datatype WriteOutcome = Written | Refused | Lost

  function AfterWrite(finals: Files, b: nat, data: seq<byte>, outcome: WriteOutcome): Files {
    match outcome
    case Written => finals[b := data]
    case Refused => finals
    case Lost => finals - {b}
  }

  function FileOf(files: Files, b: nat): Option<seq<byte>> {
    if b in files then Some(files[b]) else None
  }

  /** The first `length` bytes of the block's file. */
  function FrontOf(files: Files, b: nat, length: nat): Option<seq<byte>> {
    if b in files && length <= |files[b]| then Some(files[b][..length]) else None
  }

  class TempStore {
    var finals: Files
    var pendings: Files
    var backups: Files

    /** A directory may hold files left over from earlier. */
    constructor (finals: Files, pendings: Files, backups: Files)
      ensures this.finals == finals && this.pendings == pendings && this.backups == backups
    {
      this.finals, this.pendings, this.backups := finals, pendings, backups;
    }

    /** Every step before the file itself is renamed succeeds. */
    predicate Prepared(b: nat, faults: WriteFaults)
      reads this
    {
      && !faults.injected
      && !(faults.clearPending && b in pendings)
      && !(faults.clearBackup && b in backups)
      && !faults.create && !faults.write && !faults.sync
      && !(faults.toBackup && b in finals)
    }

    /** The outcome of a write, read off the directory and the faults before the call: the old file is lost
        exactly when it had been moved to the backup name and then both the rename into place and the
        rename back fail. */
    function Outcome(b: nat, faults: WriteFaults): WriteOutcome
      reads this
    {
      if !Prepared(b, faults) then Refused
      else if !faults.intoPlace then Written
      else if b in finals && faults.restore then Lost
      else Refused
    }

    /** The file under the block's pending name after a write: the leftover of an earlier write if that cannot be
        removed, and what was written if the write fails later and the clean-up fails too. */
    function PendingLeft(b: nat, data: seq<byte>, faults: WriteFaults): Option<seq<byte>>
      reads this
    {
      if faults.injected || (faults.clearPending && b in pendings) then FileOf(pendings, b)
      else if (faults.clearBackup && b in backups) || faults.create then None
      else if faults.write then (if faults.dropPending then Some(faults.partial) else None)
      else if faults.sync then (if faults.dropPending then Some(data) else None)
      else if faults.toBackup && b in finals then Some(data)
      else if faults.intoPlace && faults.dropPending then Some(data) else None
    }

    /** The file under the block's backup name after a write. */
    function BackupLeft(b: nat, faults: WriteFaults): Option<seq<byte>>
      reads this
    {
      if faults.injected || (faults.clearPending && b in pendings) || (faults.clearBackup && b in backups)
      then FileOf(backups, b)
      else if !Prepared(b, faults) || b !in finals then None
      else if faults.intoPlace then (if faults.restore then Some(finals[b]) else None)
      else if faults.dropBackup then Some(finals[b]) else None
    }

    /** `remove_if_exists`: a missing file is not an error. */
    static function RemoveIfExists(files: Files, b: nat, fails: bool): (r: Result<Files, ()>)
      ensures r.Err? <==> fails && b in files
      ensures r.Ok? ==> r.value == files - {b}
    {
      if b in files && fails then Err(()) else Ok(files - {b})
    }

    /** `let _ = remove_if_exists(...)`. */
    static function TryRemove(files: Files, b: nat, fails: bool): Files {
      match RemoveIfExists(files, b, fails)
      case Ok(rest) => rest
      case Err(_) => files
    }

    method WritePendingFile(b: nat, data: seq<byte>, faults: WriteFaults) returns (ok: bool)
      modifies this`pendings
      ensures ok <==> !faults.create && !faults.write && !faults.sync
      ensures ok ==> pendings == old(pendings)[b := data]
      ensures faults.create ==> pendings == old(pendings)
      ensures !ok && !faults.create && !faults.dropPending ==> pendings == old(pendings) - {b}
      ensures !ok && !faults.create && faults.dropPending ==>
        pendings == old(pendings)[b := if faults.write then faults.partial else data]
    {
      if faults.create {
        return false;
      }
      pendings := pendings[b := []];
      if faults.write {
        pendings := pendings[b := faults.partial];
        pendings := TryRemove(pendings, b, faults.dropPending);
        return false;
      }
      pendings := pendings[b := data];
      if faults.sync {
        pendings := TryRemove(pendings, b, faults.dropPending);
        return false;
      }
      ok := true;
    }

    /** Replaces the block's file by way of the pending and backup files. The call reports success exactly
        when the new content is in place; the files of other blocks never change; and a lost file's content
        survives under the backup name. */
    method WriteBlock(b: nat, data: seq<byte>, faults: WriteFaults) returns (ok: bool)
      modifies this
      ensures finals == AfterWrite(old(finals), b, data, old(Outcome(b, faults)))
      ensures ok <==> old(Outcome(b, faults)).Written?
      ensures old(Outcome(b, faults)).Lost? ==> backups == old(backups)[b := old(finals)[b]]
      ensures pendings - {b} == old(pendings) - {b} && backups - {b} == old(backups) - {b}
      ensures FileOf(pendings, b) == old(PendingLeft(b, data, faults))
      ensures FileOf(backups, b) == old(BackupLeft(b, faults))
    {
      if faults.injected {
        return false;
      }
      ok := ClearLeftovers(b, faults);
      if ok {
        ok := WritePendingFile(b, data, faults);
        if ok {
          ghost var cleaned := backups;
          ok := MoveIntoPlace(b, faults);
          assert b in old(finals) ==> cleaned[b := old(finals)[b]] == old(backups)[b := old(finals)[b]];
        }
      }
    }

    /** Removes what an earlier write left under the pending and backup names. */
    method ClearLeftovers(b: nat, faults: WriteFaults) returns (ok: bool)
      modifies this`pendings, this`backups
      ensures ok <==> !(faults.clearPending && b in old(pendings)) && !(faults.clearBackup && b in old(backups))
      ensures ok ==> pendings == old(pendings) - {b} && backups == old(backups) - {b}
      ensures !ok ==> backups == old(backups)
      ensures pendings == if faults.clearPending && b in old(pendings) then old(pendings) else old(pendings) - {b}
    {
      var cleared := RemoveIfExists(pendings, b, faults.clearPending);
      if cleared.Err? {
        return false;
      }
      pendings := cleared.value;
      cleared := RemoveIfExists(backups, b, faults.clearBackup);
      if cleared.Err? {
        return false;
      }
      backups := cleared.value;
      ok := true;
    }

    /** The two renames of a write and, when the second one fails, the rename back. */
    method MoveIntoPlace(b: nat, faults: WriteFaults) returns (ok: bool)
      requires b in pendings
      modifies this
      ensures ok <==> !(faults.toBackup && b in old(finals)) && !faults.intoPlace
      ensures ok ==> finals == old(finals)[b := old(pendings)[b]]
      ensures !ok && (faults.toBackup || !faults.restore || b !in old(finals)) ==> finals == old(finals)
      ensures !ok && !faults.toBackup && faults.restore && b in old(finals) ==>
        finals == old(finals) - {b} && backups == old(backups)[b := old(finals)[b]]
      ensures pendings ==
        if !ok && (faults.dropPending || (faults.toBackup && b in old(finals))) then old(pendings)
        else old(pendings) - {b}
      ensures backups - {b} == old(backups) - {b}
      ensures ok && !faults.dropBackup ==> b !in backups
      ensures ok && faults.dropBackup && b in old(finals) ==> b in backups && backups[b] == old(finals)[b]
      ensures ok && b !in old(finals) && b !in old(backups) ==> b !in backups
      ensures !ok && b in old(finals) && !faults.toBackup && !faults.restore ==> b !in backups
      ensures !ok && (faults.toBackup || b !in old(finals)) ==> backups == old(backups)
    {
      var finalExists := b in finals;
      if finalExists {
        if faults.toBackup {
          return false;
        }
        backups, finals := backups[b := finals[b]], finals - {b};
      }
      if !faults.intoPlace {
        finals, pendings := finals[b := pendings[b]], pendings - {b};
        backups := TryRemove(backups, b, faults.dropBackup);
        assert finals == old(finals)[b := old(pendings)[b]];
        return true;
      }
      TakeBack(b, finalExists, faults);
      assert finalExists && !faults.restore ==> finals == old(finals) && backups - {b} == old(backups) - {b};
      ok := false;
    }

    /** The rename back of the old file, if there was one, and the clean-up of the pending file. */
    method TakeBack(b: nat, wasThere: bool, faults: WriteFaults)
      requires b in pendings && (wasThere ==> b in backups)
      modifies this
      ensures finals == if wasThere && !faults.restore then old(finals)[b := old(backups)[b]] else old(finals)
      ensures backups == if wasThere && !faults.restore then old(backups) - {b} else old(backups)
      ensures pendings == if faults.dropPending then old(pendings) else old(pendings) - {b}
    {
      if wasThere && !faults.restore {
        finals, backups := finals[b := backups[b]], backups - {b};
      }
      pendings := TryRemove(pendings, b, faults.dropPending);
    }

    /** Fills a buffer of `length` bytes from the block's file, which must hold at least that many. */
    method ReadBlock(b: nat, length: nat, fails: bool) returns (r: Option<seq<byte>>)
      ensures r == if fails then None else FrontOf(finals, b, length)
    {
      if fails || b !in finals || |finals[b]| < length {
        return None;
      }
      r := Some(finals[b][..length]);
    }

    /** What a read finds after a write: the data written, in full, if the write succeeded; nothing if the old file
        was lost; and what it found before otherwise, as for every other block. */
    lemma ReadAfterWrite(b: nat, data: seq<byte>, faults: WriteFaults, x: nat, length: nat)
      ensures var after := AfterWrite(finals, b, data, Outcome(b, faults));
        && (Outcome(b, faults).Written? ==> FrontOf(after, b, |data|) == Some(data))
        && (Outcome(b, faults).Written? && length <= |data| ==> FrontOf(after, b, length) == Some(data[..length]))
        && (Outcome(b, faults).Written? && length > |data| ==> FrontOf(after, b, length).None?)
        && (Outcome(b, faults).Lost? ==> FrontOf(finals, b, 0).Some? && FrontOf(after, b, length).None?)
        && (Outcome(b, faults).Refused? || x != b ==> FrontOf(after, x, length) == FrontOf(finals, x, length))
    {
      assert data[..|data|] == data;
    }

    method RemoveBlock(b: nat, injected: bool, fails: bool) returns (ok: bool)
      modifies this`finals
      ensures ok <==> !injected && !(fails && b in old(finals))
      ensures finals == if ok then old(finals) - {b} else old(finals)
    {
      if injected {
        return false;
      }
      var removed := RemoveIfExists(finals, b, fails);
      if removed.Err? {
        return false;
      }
      finals := removed.value;
      ok := true;
    }

    /** A write replaces the file exactly when no operation it needs fails, and loses the old one exactly when that
        was moved aside and both renames that could bring a file back fail. A leftover that is not there cannot fail
        to be removed, and only an old file is moved aside. */
    lemma OutcomeTable(b: nat, faults: WriteFaults)
      ensures var early := faults.injected || (faults.clearPending && b in pendings)
        || (faults.clearBackup && b in backups) || faults.create || faults.write || faults.sync
        || (faults.toBackup && b in finals);
        && (Outcome(b, faults) == Written <==> !early && !faults.intoPlace)
        && (Outcome(b, faults) == Lost <==> !early && faults.intoPlace && faults.restore && b in finals)
    {
    }

    /** Replacing a block's file is all or nothing, except for one family of double faults. A failed write
        leaves every file name as it was if and only if it is not the case that the old file had already been
        moved to the backup name and both renames that could bring a file back fail. */
    lemma FailedWriteKeepsFilesIff(b: nat, data: seq<byte>, faults: WriteFaults)
      requires !Outcome(b, faults).Written?
      ensures AfterWrite(finals, b, data, Outcome(b, faults)) == finals
        <==> !(Prepared(b, faults) && b in finals && faults.intoPlace && faults.restore)
    {
      if Outcome(b, faults).Lost? {
        assert b in finals && b !in finals - {b};
      }
    }
  }

  /** The double fault is real: with the old file backed up, a failing rename into place and a failing rename
      back, the block's file is gone. */
  method LostFileExample() returns (store: TempStore)
    ensures fresh(store) && 7 !in store.finals && store.backups == map[7 := [1]]
  {
    store := new TempStore(map[7 := [1]], map[], map[]);
    var faults := WriteFaults(false, false, false, false, false, [], false, false, true, true, false, false);
    var ok := store.WriteBlock(7, [2], faults);
    assert !ok;
  }
}
