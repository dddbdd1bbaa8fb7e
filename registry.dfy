/**
 * The installation registry: the `Config` object of
 * fabricdw/common/config.py with its ordered list of installations, the
 * lookup, append and removal operations on that list, and the two validators
 * `Installation.ensure_exists` and `Installation.ensure_does_not_exist`.
 *
 * The process-wide `CONFIG` object becomes an explicit receiver, and the
 * filesystem check `exists(root) and isdir(root)` becomes membership of
 * `root` in a given set of live directory paths. The removal command in
 * module `Remove` passes the `liveDirs` of its `Filesystem` object, so the
 * validators and the command read the same liveness state.
 */
module Registry {
  import opened Wrappers
  import opened JsonValue
  import opened Serialization

  /** The index of the first entry named `name`, scanning from the front. */
  function FirstIndex(s: seq<Installation>, name: string): (r: Option<nat>)
    ensures r.None? <==> forall i :: 0 <= i < |s| ==> s[i].name != name
    ensures r.Some? ==> r.value < |s| && s[r.value].name == name
    ensures r.Some? ==> forall i :: 0 <= i < r.value ==> s[i].name != name
  {
    if s == [] then None
    else if s[0].name == name then Some(0)
    else
      match FirstIndex(s[1..], name)
      case None => None
      case Some(k) => Some(k + 1)
  }

  /** What `get_installation` returns: the first entry named `name`, if any. */
  function Lookup(s: seq<Installation>, name: string): Option<Installation>
  {
    match FirstIndex(s, name)
    case None => None
    case Some(k) => Some(s[k])
  }

  /**
   * `list.remove(target)` on a list of installations: the first entry equal
   * to `target` (by name) is dropped; with none, `ValueError` is raised,
   * modelled as `None`.
   */
  function RemoveFirst(s: seq<Installation>, target: Installation): (r: Option<seq<Installation>>)
    ensures r.None? <==> forall i :: 0 <= i < |s| ==> !SameInstallation(s[i], target)
    ensures r.Some? ==> |r.value| == |s| - 1
  {
    if s == [] then None
    else if SameInstallation(s[0], target) then Some(s[1..])
    else
      match RemoveFirst(s[1..], target)
      case None =>
        assert forall i :: 1 <= i < |s| ==> s[i] == s[1..][i - 1];
        None
      case Some(rest) => Some([s[0]] + rest)
  }

  /** Deleting index `k` of the tail and putting the head back deletes index `k + 1`. */
  lemma DeleteAfterHead(s: seq<Installation>, k: nat)
    requires k + 1 < |s|
    ensures [s[0]] + (s[1..][..k] + s[1..][k + 1..]) == s[..k + 1] + s[k + 2..]
  {
  }

  /**
   * `list.remove` and the scan of `get_installation` agree: the entry removed
   * is the one at the first index carrying the name, and nothing else moves
   * but the entries after it, each by one place.
   */
  lemma {:induction false} RemoveFirstDeletesFirstIndex(s: seq<Installation>, target: Installation)
    ensures match FirstIndex(s, target.name)
            case None => RemoveFirst(s, target).None?
            case Some(k) => RemoveFirst(s, target) == Some(s[..k] + s[k + 1..])
  {
    if s == [] {
    } else if s[0].name == target.name {
      assert FirstIndex(s, target.name) == Some(0);
      assert s[..0] + s[1..] == s[1..];
    } else {
      RemoveFirstDeletesFirstIndex(s[1..], target);
      match FirstIndex(s[1..], target.name)
      case None =>
      case Some(k) =>
        assert FirstIndex(s, target.name) == Some(k + 1);
        var rest := s[1..][..k] + s[1..][k + 1..];
        assert RemoveFirst(s, target) == Some([s[0]] + rest);
        DeleteAfterHead(s, k);
    }
  }

  /** Deleting index `k` shifts every later entry down by one and keeps the earlier ones. */
  lemma DeleteAt(s: seq<Installation>, k: nat)
    requires k < |s|
    ensures var r := s[..k] + s[k + 1..];
            |r| == |s| - 1
            && (forall i :: 0 <= i < k ==> r[i] == s[i])
            && (forall i :: k <= i < |r| ==> r[i] == s[i + 1])
  {
  }

  /** The registry invariant: no two entries share a name. */
  ghost predicate UniqueNames(s: seq<Installation>)
  {
    forall i, j :: 0 <= i < j < |s| ==> s[i].name != s[j].name
  }

  /**
   * Removing by name ignores the root of the record passed in, because
   * records compare by name only.
   */
  lemma {:induction false} RemoveFirstIgnoresRoot(s: seq<Installation>, name: string, root1: string, root2: string)
    ensures RemoveFirst(s, Installation(name, root1)) == RemoveFirst(s, Installation(name, root2))
  {
    if s != [] && s[0].name != name {
      RemoveFirstIgnoresRoot(s[1..], name, root1, root2);
    }
  }

  /**
   * A successful removal deletes exactly one entry, the first one named
   * `target.name`; every other entry keeps its relative order, and a later
   * entry with the same name (possible, as append does not check) stays.
   */
  lemma {:induction false} RemoveFirstDropsOne(s: seq<Installation>, target: Installation)
    requires RemoveFirst(s, target).Some?
    ensures var r := RemoveFirst(s, target).value;
            var k := FirstIndex(s, target.name).value;
            |r| == |s| - 1
            && s[k].name == target.name
            && (forall i :: 0 <= i < k ==> r[i] == s[i] && r[i].name != target.name)
            && (forall i :: k <= i < |r| ==> r[i] == s[i + 1])
            && multiset(r) + multiset{s[k]} == multiset(s)
  {
    RemoveFirstDeletesFirstIndex(s, target);
    var k := FirstIndex(s, target.name).value;
    var r := RemoveFirst(s, target).value;
    DeleteAt(s, k);
    assert s[k..] == [s[k]] + s[k + 1..];
    assert s == s[..k] + s[k..];
    assert multiset(s) == multiset(s[..k]) + multiset(s[k..]);
  }

  /** With unique names, removal leaves no entry of that name and keeps names unique. */
  lemma {:induction false} RemoveFirstKeepsUnique(s: seq<Installation>, target: Installation)
    requires UniqueNames(s)
    requires RemoveFirst(s, target).Some?
    ensures UniqueNames(RemoveFirst(s, target).value)
    ensures Lookup(RemoveFirst(s, target).value, target.name).None?
  {
    RemoveFirstDeletesFirstIndex(s, target);
    var r := RemoveFirst(s, target).value;
    var k := FirstIndex(s, target.name).value;
    DeleteAt(s, k);
    forall i, j | 0 <= i < j < |r|
      ensures r[i].name != r[j].name
    {
      var i', j' := if i < k then i else i + 1, if j < k then j else j + 1;
      assert r[i] == s[i'] && r[j] == s[j'] && i' < j';
    }
    forall i | 0 <= i < |r|
      ensures r[i].name != target.name
    {
      var i' := if i < k then i else i + 1;
      assert r[i] == s[i'] && i' != k;
    }
  }

  /**
   * Appending a name that `ensure_does_not_exist` has just accepted keeps
   * the names unique.
   */
  lemma AppendFreshKeepsUnique(s: seq<Installation>, name: string, root: string)
    requires UniqueNames(s)
    requires Lookup(s, name).None?
    ensures UniqueNames(s + [Installation(name, root)])
    ensures Lookup(s + [Installation(name, root)], name) == Some(Installation(name, root))
  {
    var t := s + [Installation(name, root)];
    assert forall i :: 0 <= i < |s| ==> t[i] == s[i];
    assert forall i :: 0 <= i < |s| ==> s[i].name != name;
    assert t[|s|].name == name;
    assert FirstIndex(t, name) == Some(|s|);
  }

  /** The registry calls a caller can make on the name list. */
  datatype Op = Create(name: string, root: string) | RemoveByName(name: string)

  /**
   * The list after a run of calls in which every create is preceded by
   * `ensure_does_not_exist` (a create of a registered name raises and
   * appends nothing) and every failed removal leaves the list as it was.
   */
  function ApplyGuarded(s: seq<Installation>, ops: seq<Op>): seq<Installation>
    decreases |ops|
  {
    if ops == [] then s
    else
      var next :=
        match ops[0]
        case Create(name, root) =>
          if Lookup(s, name).Some? then s else s + [Installation(name, root)]
        case RemoveByName(name) =>
          match RemoveFirst(s, Installation(name, ""))
          case None => s
          case Some(rest) => rest;
      ApplyGuarded(next, ops[1..])
  }

  /** Any sequence of guarded creates and removals keeps the names unique. */
  lemma {:induction false} GuardedOpsKeepUnique(s: seq<Installation>, ops: seq<Op>)
    requires UniqueNames(s)
    ensures UniqueNames(ApplyGuarded(s, ops))
    decreases |ops|
  {
    if ops != [] {
      match ops[0]
      case Create(name, root) =>
        if Lookup(s, name).None? {
          AppendFreshKeepsUnique(s, name, root);
        }
        GuardedOpsKeepUnique(if Lookup(s, name).Some? then s else s + [Installation(name, root)], ops[1..]);
      case RemoveByName(name) =>
        match RemoveFirst(s, Installation(name, ""))
        case None =>
          GuardedOpsKeepUnique(s, ops[1..]);
        case Some(rest) =>
          RemoveFirstKeepsUnique(s, Installation(name, ""));
          GuardedOpsKeepUnique(rest, ops[1..]);
    }
  }

  /** The `Config` object: its defaults and its ordered list of installations. */
  class Config {
    var defaults: Defaults
    var installations: seq<Installation>

    /** `Config.__init__`. */
    constructor (defaults: Defaults, installations: seq<Installation>)
      ensures this.defaults == defaults && this.installations == installations
    {
      this.defaults := defaults;
      this.installations := installations;
    }

    /** The value this object holds. */
    function Record(): ConfigRecord
      reads this
    {
      ConfigRecord(defaults, installations)
    }

    /** `Config.to_dict`: reading its result back yields this very configuration. */
    function ToDict(): (v: JVal)
      reads this
      ensures ConfigFromDict(v) == Success(Record())
      ensures v.JObj? && v.obj.Keys == {"defaults", "installations"}
    {
      ConfigRoundTrip(Record());
      ConfigToDict(Record())
    }

    /** `get_installation`: a scan that returns the first entry with the name. */
    method GetInstallation(name: string) returns (r: Option<Installation>)
      ensures r.None? <==> forall i :: 0 <= i < |installations| ==> installations[i].name != name
      ensures r.Some? ==> r.value.name == name && r.value in installations
      ensures r == Lookup(installations, name)
    {
      var i := 0;
      while i < |installations|
        invariant 0 <= i <= |installations|
        invariant forall j :: 0 <= j < i ==> installations[j].name != name
      {
        if installations[i].name == name {
          assert FirstIndex(installations, name) == Some(i);
          return Some(installations[i]);
        }
        i := i + 1;
      }
      return None;
    }

    /** `create_new_installation`: appends without checking the name. */
    method CreateNewInstallation(name: string, root: string) returns (installation: Installation)
      modifies this
      ensures installation == Installation(name, root)
      ensures installations == old(installations) + [installation]
      ensures defaults == old(defaults)
    {
      installation := Installation(name, root);
      installations := installations + [installation];
    }

    /**
     * `remove_installation`: `list.remove`, which drops the first entry with
     * the same name and raises `ValueError` when there is none.
     */
    method RemoveInstallation(installation: Installation) returns (r: Result<(), Error>)
      modifies this
      ensures defaults == old(defaults)
      ensures match FirstIndex(old(installations), installation.name)
              case None => r == Failure(ValueError) && installations == old(installations)
              case Some(k) => r == Success(()) && installations == old(installations[..k] + installations[k + 1..])
    {
      RemoveFirstDeletesFirstIndex(installations, installation);
      match RemoveFirst(installations, installation)
      case None =>
        r := Failure(ValueError);
      case Some(rest) =>
        installations := rest;
        r := Success(());
    }

    /**
     * `Installation.ensure_exists`: a live record is returned; otherwise,
     * when `removeIfMissing` is set, `remove_installation(Installation(name, ""))`
     * runs first, so a stale record is dropped and then
     * `InstallationDoesNotExist` raised, while an unregistered name makes
     * `list.remove` raise `ValueError` before that.
     */
    method EnsureExists(name: string, liveDirs: set<string>, removeIfMissing: bool) returns (r: Result<Installation, Error>)
      modifies this
      ensures defaults == old(defaults)
      ensures match FirstIndex(old(installations), name)
              case Some(k) =>
                if old(installations)[k].root in liveDirs then
                  r == Success(old(installations)[k]) && installations == old(installations)
                else
                  r == Failure(InstallationDoesNotExist(name))
                  && installations == (if removeIfMissing then old(installations[..k] + installations[k + 1..])
                                       else old(installations))
              case None =>
                r == Failure(if removeIfMissing then ValueError else InstallationDoesNotExist(name))
                && installations == old(installations)
    {
      var found := GetInstallation(name);
      if found.None? || found.value.root !in liveDirs {
        if removeIfMissing {
          var removed := RemoveInstallation(Installation(name, ""));
          if removed.Failure? {
            return Failure(removed.error);
          }
        }
        return Failure(InstallationDoesNotExist(name));
      }
      return Success(found.value);
    }

    /**
     * `Installation.ensure_exists` as its authors evidently meant it: a stale
     * record is dropped, and every name without a live record raises
     * `InstallationDoesNotExist`, whether or not it was registered.
     */
    method EnsureExistsIntended(name: string, liveDirs: set<string>, removeIfMissing: bool) returns (r: Result<Installation, Error>)
      modifies this
      ensures defaults == old(defaults)
      ensures r.Success? <==> Lookup(old(installations), name).Some? && Lookup(old(installations), name).value.root in liveDirs
      ensures r.Success? ==> r.value == Lookup(old(installations), name).value && installations == old(installations)
      ensures r.Failure? ==> r.error == InstallationDoesNotExist(name)
      ensures match FirstIndex(old(installations), name)
              case Some(k) =>
                installations == (if old(installations)[k].root !in liveDirs && removeIfMissing
                                  then old(installations[..k] + installations[k + 1..])
                                  else old(installations))
              case None => installations == old(installations)
    {
      var found := GetInstallation(name);
      if found.None? {
        return Failure(InstallationDoesNotExist(name));
      }
      if found.value.root !in liveDirs {
        if removeIfMissing {
          var removed := RemoveInstallation(found.value);
        }
        return Failure(InstallationDoesNotExist(name));
      }
      return Success(found.value);
    }

    /**
     * `Installation.ensure_does_not_exist`: raises `InstallationAlreadyExist`
     * with the first record of that name whenever one is registered, live or
     * not, and changes nothing.
     */
    method EnsureDoesNotExist(name: string) returns (r: Result<(), Error>)
      ensures r.Success? <==> forall i :: 0 <= i < |installations| ==> installations[i].name != name
      ensures r.Failure? ==> r.error.InstallationAlreadyExist? && r.error.existing.name == name
      ensures match Lookup(installations, name)
              case None => r == Success(())
              case Some(existing) => r == Failure(InstallationAlreadyExist(existing))
    {
      var found := GetInstallation(name);
      if found.Some? {
        return Failure(InstallationAlreadyExist(found.value));
      }
      return Success(());
    }
  }

  /** `Config.from_dict` followed by `Config.__init__`. */
  method ConfigFromValue(v: JVal) returns (r: Result<Config, Error>)
    ensures match ConfigFromDict(v)
            case Failure(e) => r == Failure(e)
            case Success(c) => r.Success? && fresh(r.value) && r.value.Record() == c
  {
    match ConfigFromDict(v)
    case Failure(e) =>
      r := Failure(e);
    case Success(c) =>
      var config := new Config(c.defaults, c.installations);
      r := Success(config);
  }

  /**
   * `_load_config` when the configuration file is missing: an empty list of
   * installations and every setting at its fallback.
   */
  method LoadMissingFile() returns (config: Config)
    ensures fresh(config)
    ensures config.installations == [] && config.defaults == FallbackDefaults
  {
    MissingFileConfig();
    var r := ConfigFromValue(MissingFileDict);
    config := r.value;
  }

  /**
   * On an empty registry, `ensure_exists("x")` with the default
   * `remove_if_missing=True` raises `ValueError` from `list.remove`, not
   * `InstallationDoesNotExist`; the intended version raises the latter.
   */
  method EnsureExistsUnregisteredCounterexample()
  {
    var config := new Config(FallbackDefaults, []);
    var r := config.EnsureExists("x", {}, true);
    assert r == Failure(ValueError);
    var fixed := config.EnsureExistsIntended("x", {}, true);
    assert fixed == Failure(InstallationDoesNotExist("x"));
  }
}
