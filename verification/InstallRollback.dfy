/**
 Replacing an installation: the new tree is staged beside the old one, the old one is moved away, and any
 failure is rolled back. Every call to the file system may fail, in the rollback too.
 */
module InstallRollback {
  import opened Json

  /** The contents of a directory. */
  type Contents(==) = string

  datatype Place = Target | Staging | Backup | Failed

  datatype Outcome = Installed | RolledBack | RollbackFailed

  class Volume {
    var directories: map<Place, Contents>
    /** Whether the n-th call succeeds, and how many there have been. */
    const answers: nat -> bool
    var calls: nat

    constructor (answers: nat -> bool, directories: map<Place, Contents>)
      ensures this.answers == answers && this.directories == directories && calls == 0
    {
      this.answers, this.directories, calls := answers, directories, 0;
    }

    function At(p: Place): Option<Contents>
      reads this
    {
      if p in directories then Some(directories[p]) else None
    }

    method Attempt() returns (ok: bool)
      modifies this`calls
    {
      ok := answers(calls);
      calls := calls + 1;
    }

    /** `Directory.Move`: fails without effect, in particular when the destination exists. */
    method Move(from: Place, to: Place) returns (ok: bool)
      requires from != to
      modifies this`directories, this`calls
      ensures ok ==> from in old(directories) && to !in old(directories)
                     && directories == (old(directories) - {from})[to := old(directories)[from]]
      ensures !ok ==> directories == old(directories)
    {
      ok := Attempt();
      if !ok || from !in directories || to in directories {
        return false;
      }
      directories := (directories - {from})[to := directories[from]];
    }

    /** Fills the new staging directory; a failure leaves it partly filled. */
    method Extract(replacement: Contents, partial: Contents) returns (ok: bool)
      modifies this`directories, this`calls
      ensures directories == old(directories)[Staging := if ok then replacement else partial]
    {
      ok := Attempt();
      directories := directories[Staging := if ok then replacement else partial];
    }

    /** Deletes a directory, or leaves some of it. */
    method Discard(p: Place, remains: Contents)
      modifies this`directories, this`calls
      ensures directories == old(directories) || directories == old(directories) - {p}
              || (p in old(directories) && directories == old(directories)[p := remains])
    {
      if p in directories {
        var ok := Attempt();
        directories := if ok then directories - {p} else directories[p := remains];
      }
    }

    /** Moving the trees; says how far it came. `finish` are the steps after the moves. */
    method Replace(replacement: Contents, partial: Contents) returns (ok: bool, previousMoved: bool, stagedMoved: bool)
      requires Backup !in directories && Failed !in directories
      modifies this`directories, this`calls
      ensures Failed !in directories
      ensures previousMoved ==> old(At(Target)).Some? && At(Backup) == old(At(Target))
      ensures !previousMoved ==> At(Backup) == None && (!stagedMoved ==> At(Target) == old(At(Target)))
      ensures previousMoved && !stagedMoved ==> At(Target) == None
      ensures !previousMoved && stagedMoved ==> old(At(Target)) == None
      ensures stagedMoved ==> At(Target) == Some(replacement)
      ensures ok ==> stagedMoved && (previousMoved <==> old(At(Target)).Some?)
    {
      ok, previousMoved, stagedMoved := false, false, false;
      var step := Extract(replacement, partial);
      if !step {
        return;
      }
      step := Attempt();
      if !step {
        return;
      }
      if Target in directories {
        step := Move(Target, Backup);
        if !step {
          return;
        }
        previousMoved := true;
      }
      step := Move(Staging, Target);
      if !step {
        return;
      }
      stagedMoved := true;
      ok := Attempt();
    }

    /** The catch block: the new tree is set aside and the old one put back, each step on its own. */
    method RollBack(previousMoved: bool, stagedMoved: bool) returns (ok: bool)
      requires Failed !in directories
      requires previousMoved ==> Backup in directories && (!stagedMoved ==> Target !in directories)
      requires stagedMoved ==> Target in directories
      modifies this`directories, this`calls
      ensures ok ==>
              At(Target) == if previousMoved then old(At(Backup)) else if stagedMoved then None else old(At(Target))
      ensures previousMoved ==> At(Target) == old(At(Backup)) || At(Backup) == old(At(Backup))
      ensures !previousMoved && !stagedMoved ==> At(Target) == old(At(Target))
      ensures At(Target) == None || At(Target) == old(At(Target)) || (previousMoved && At(Target) == old(At(Backup)))
    {
      ok := true;
      if stagedMoved && Target in directories {
        ok := Move(Target, Failed);
      }
      if previousMoved && Backup in directories && Target !in directories {
        var restored := Move(Backup, Target);
        ok := ok && restored;
      }
    }

    /**
     The installation as a whole. It ends with the new tree in place, or with the old one back where it
     was; if even the rollback fails, the old tree is still there whole, at its place or set aside.
     */
    method Install(replacement: Contents, partial: Contents, remains: Contents) returns (o: Outcome)
      requires Backup !in directories && Failed !in directories
      modifies this`directories, this`calls
      ensures o == Installed ==> At(Target) == Some(replacement)
      ensures o == RolledBack ==> At(Target) == old(At(Target))
      ensures o == RollbackFailed ==>
                old(At(Target)).Some? ==> At(Target) == old(At(Target)) || At(Backup) == old(At(Target))
      ensures At(Target) == None || At(Target) == old(At(Target)) || At(Target) == Some(replacement)
    {
      var ok, previousMoved, stagedMoved := Replace(replacement, partial);
      if ok {
        o := Installed;
      } else {
        var restored := RollBack(previousMoved, stagedMoved);
        o := if restored then RolledBack else RollbackFailed;
        Discard(Failed, remains);
      }
      Discard(Staging, remains);
      if o == Installed {
        Discard(Backup, remains);
      }
    }
  }
}
