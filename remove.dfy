/**
 * Removing an installation (fabricdw/installations/remove.py): the decision
 * `_remove_installation` takes from the looked-up record, the state of its
 * root directory and the user's answer, and the command
 * `remove_installation` that carries it out on the registry.
 *
 * The confirmation prompt becomes the `answer` parameter, consulted only
 * when the prompt would be shown; `remove_dir` and the directory checks
 * become a `Filesystem` object holding the set of live directories.
 */
module Remove {
  import opened Wrappers
  import opened Serialization
  import opened Registry

  /** The four ways `_remove_installation` can end. */
  datatype Outcome =
    | Absent     // no record has the name: returns False
    | Stale      // the root is not a live directory: returns True without asking
    | Confirmed  // live root, the user said yes: the root is deleted, returns True
    | Declined   // live root, the user said no: returns False
  {
    /** The boolean `_remove_installation` returns; on True the caller drops the record. */
    predicate DropsRecord()
    {
      this == Stale || this == Confirmed
    }

    /** Whether `remove_dir` is called on the record's root. */
    predicate DeletesRoot()
    {
      this == Confirmed
    }
  }

  /** The confirmation question is put only for a record whose root is a live directory. */
  predicate Asks(active: Option<Installation>, liveDirs: set<string>)
  {
    active.Some? && active.value.root in liveDirs
  }

  /** `_remove_installation`, as a decision over (record found?, root live?, answer). */
  function Decide(active: Option<Installation>, liveDirs: set<string>, answer: bool): (o: Outcome)
    ensures o.DropsRecord() <==> active.Some? && (active.value.root !in liveDirs || answer)
    ensures o.DeletesRoot() <==> Asks(active, liveDirs) && answer
    ensures o == Absent <==> active.None?
    ensures o == Declined ==> Asks(active, liveDirs) && !answer
  {
    if active.None? then Absent
    else if active.value.root !in liveDirs then Stale
    else if answer then Confirmed
    else Declined
  }

  /** The answer changes the outcome exactly when the question is asked. */
  lemma AnswerMattersOnlyWhenAsked(active: Option<Installation>, liveDirs: set<string>)
    ensures Decide(active, liveDirs, true) != Decide(active, liveDirs, false) <==> Asks(active, liveDirs)
    ensures !Asks(active, liveDirs) ==> !Decide(active, liveDirs, true).DeletesRoot()
  {
  }

  /** The part of the filesystem the removal touches. */
  class Filesystem {
    /** Paths that exist and are directories. */
    var liveDirs: set<string>
    /** Paths whose removal fails with an OS error (permissions, locks). */
    var undeletable: set<string>

    constructor (liveDirs: set<string>, undeletable: set<string>)
      ensures this.liveDirs == liveDirs && this.undeletable == undeletable
    {
      this.liveDirs := liveDirs;
      this.undeletable := undeletable;
    }

    /** `remove_dir`: afterwards `path` is no longer a live directory, unless the OS refuses. */
    method RemoveDir(path: string) returns (r: Result<(), Error>)
      modifies this
      ensures undeletable == old(undeletable)
      ensures path in undeletable ==> r == Failure(OSError(path)) && liveDirs == old(liveDirs)
      ensures path !in undeletable ==> r == Success(()) && liveDirs == old(liveDirs) - {path}
    {
      if path in undeletable {
        return Failure(OSError(path));
      }
      liveDirs := liveDirs - {path};
      return Success(());
    }
  }

  /**
   * `remove_installation(args)`: look the name up, decide, delete the root
   * only after a yes, and on a True result drop the first record of that
   * name. An OS error from the deletion escapes and leaves the record in
   * place. The configuration file is not written here.
   */
  method RemoveInstallationCommand(config: Config, fs: Filesystem, name: string, answer: bool)
    returns (r: Result<Outcome, Error>)
    modifies config, fs
    ensures config.defaults == old(config.defaults)
    ensures fs.undeletable == old(fs.undeletable)
    ensures match FirstIndex(old(config.installations), name)
            case None =>
              r == Success(Absent)
              && config.installations == old(config.installations) && fs.liveDirs == old(fs.liveDirs)
            case Some(k) =>
              var active := old(config.installations)[k];
              var o := Decide(Some(active), old(fs.liveDirs), answer);
              if o.DeletesRoot() && active.root in fs.undeletable then
                r == Failure(OSError(active.root))
                && config.installations == old(config.installations) && fs.liveDirs == old(fs.liveDirs)
              else
                r == Success(o)
                && fs.liveDirs == (if o.DeletesRoot() then old(fs.liveDirs) - {active.root} else old(fs.liveDirs))
                && config.installations == (if o.DropsRecord() then old(config.installations[..k] + config.installations[k + 1..])
                                            else old(config.installations))
  {
    var active := config.GetInstallation(name);
    var outcome := Decide(active, fs.liveDirs, answer);
    if outcome.DeletesRoot() {
      var deleted := fs.RemoveDir(active.value.root);
      if deleted.Failure? {
        return Failure(deleted.error);
      }
    }
    if outcome.DropsRecord() {
      var removed := config.RemoveInstallation(active.value);
    }
    return Success(outcome);
  }

  /**
   * A record whose directory is already gone is dropped without asking;
   * a declined removal of a live one changes nothing.
   */
  method Scenarios()
  {
    var config := new Config(FallbackDefaults, [Installation("a", "/tmp/a"), Installation("b", "/tmp/b")]);
    var fs := new Filesystem({"/tmp/b"}, {});
    var r := RemoveInstallationCommand(config, fs, "a", true);
    assert FirstIndex([Installation("a", "/tmp/a"), Installation("b", "/tmp/b")], "a") == Some(0);
    assert r == Success(Stale);
    assert config.installations == [Installation("b", "/tmp/b")];
    assert fs.liveDirs == {"/tmp/b"};
    r := RemoveInstallationCommand(config, fs, "b", false);
    assert FirstIndex([Installation("b", "/tmp/b")], "b") == Some(0);
    assert r == Success(Declined);
    assert config.installations == [Installation("b", "/tmp/b")];
    r := RemoveInstallationCommand(config, fs, "missing", true);
    assert r == Success(Absent);
  }
}
