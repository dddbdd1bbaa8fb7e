# fabricdw installation registry, modelled in Dafny

fabricdw keeps a registry of named installations, each a `(name, root)` pair
pointing at a directory, in one JSON configuration file. This project models
the core of that registry and of the `remove` command:

- `serialization.dfy` (module `Serialization`): the `Installation`,
  `Defaults` and `Config` records of `fabricdw/common/config.py` and their
  `from_dict` / `to_dict` conversions over plain JSON values (`JVal` in
  `json_value.dfy`). Each of the four defaults falls back on its own
  hard-coded value (0.5, 6, 0, 5). Python's exceptions are `Failure` values:
  a missing key is `KeyError(key)`, and subscripting or iterating the wrong
  kind of value is `TypeError`.
- `registry.dfy` (module `Registry`): the `Config` object as a class with a
  `defaults` field and an `installations` sequence that its methods update.
  It has lookup (first match), append (no uniqueness check) and `list.remove`
  (first entry with an equal name, `ValueError` when there is none). It also
  has the validators `ensure_exists` and `ensure_does_not_exist`. The registry
  invariant is that names are unique. Lemmas show that removal and a guarded
  append preserve it, and that it holds across any run of guarded calls.
- `remove.dfy` (module `Remove`): the four outcomes of `_remove_installation`
  (absent, stale, confirmed, declined), and the `remove_installation` command.
  The command deletes the root only after a yes and drops the first record of
  the name only on a True result.

Python's process-wide `CONFIG` becomes an explicit `Config` receiver. The
check `exists(root) and isdir(root)` becomes membership of `root` in a set of
live directories. The yes/no prompt becomes a `bool` answer, which is used
only when the prompt would be shown. `remove_dir` becomes
`Filesystem.RemoveDir`, which takes the path out of the live set or fails with
an OS error for paths in `undeletable`.

## Model

| member | source | states |
|---|---|---|
| `Serialization.DefaultGet` | fabricdw/common/config.py:17-19 | the value under the key when the key is present, otherwise the fallback |
| `Serialization.SameInstallation` | fabricdw/common/config.py:63-66 | two records are the same installation exactly when they agree once the root is ignored: records compare by name only |
| `Serialization.DefaultsFromDict` | fabricdw/common/config.py:104-108 | the per-field merge: every setting whose key is in the dict takes that value, and every missing one takes its own fallback (its meaning is also stated through `DefaultGet`, `DefaultsFromEmpty`, `DefaultsOverrideOne` and `DefaultsIgnoreOtherKeys`) |
| `Serialization.DefaultsFromEmpty` | fabricdw/common/config.py:104-108 | an empty dict gives the settings (0.5, 6, 0, 5) |
| `Serialization.DefaultsOverrideOne` | fabricdw/common/config.py:104-108 | a dict holding one of the four keys overrides that setting alone; the other three keep their fallbacks |
| `Serialization.DefaultsIgnoreOtherKeys` | fabricdw/common/config.py:104-108 | keys other than the four settings do not affect the defaults |
| `Serialization.DefaultsFromValue` | fabricdw/common/config.py:104-112 | a dict gives the per-key merge; a number, boolean or null raises TypeError; a list or string either raises TypeError or gives all fallbacks |
| `Serialization.DefaultsToDict` | fabricdw/common/config.py:114-117 | always emits exactly the four keys |
| `Serialization.DefaultsRoundTrip` | fabricdw/common/config.py:104-117 | reading back `to_dict` of any defaults gives the same four values |
| `Serialization.InstallationFromDict` | fabricdw/common/config.py:71-73 | succeeds exactly on a dict with string `name` and `root`, giving that pair; a missing `name` raises KeyError('name') first, then a missing `root` raises KeyError('root'); a non-dict raises TypeError |
| `Serialization.InstallationToDict` | fabricdw/common/config.py:75-76 | emits a dict with exactly the keys `name` and `root` |
| `Serialization.InstallationRoundTrip` | fabricdw/common/config.py:71-76 | `from_dict(to_dict(i))` is `i` |
| `Serialization.InstallationsFromList` | fabricdw/common/config.py:128 | succeeds exactly when every entry is well formed, giving the entries' pairs in the same order; otherwise it raises the error of the first bad entry, with no partial list |
| `Serialization.InstallationsFromValue` | fabricdw/common/config.py:128 | a list is converted entry by entry; an empty dict or string gives no entries; any other non-list raises TypeError |
| `Serialization.InstallationsToList` | fabricdw/common/config.py:135 | one entry per installation, in order, and each one reads back as that installation |
| `Serialization.ConfigFromDict` | fabricdw/common/config.py:125-130 | a missing `defaults` raises KeyError('defaults'); a missing `installations` raises KeyError('installations'); it succeeds exactly when both keys are present and both convert, with no partial result |
| `Serialization.ConfigToDict` | fabricdw/common/config.py:132-136 | emits exactly the keys `defaults` (holding all four settings) and `installations` (one entry per installation) |
| `Serialization.InstallationsRoundTrip` | fabricdw/common/config.py:128-135 | reading back the serialised list gives the same pairs in the same order |
| `Serialization.ConfigRoundTrip` | fabricdw/common/config.py:125-136 | `Config.from_dict(c.to_dict())` gives the same defaults and installations |
| `Serialization.MissingFileConfig` | fabricdw/common/config.py:164-168 | the dict synthesised for a missing file gives fallback defaults and no installations |
| `Registry.FirstIndex` | fabricdw/common/config.py:152-157 | none exactly when no entry has the name; otherwise an index whose entry has the name and before which no entry has it |
| `Registry.RemoveFirst` | fabricdw/common/config.py:148-150 | `list.remove` fails exactly when no entry is equal by name; otherwise the list becomes one shorter |
| `Registry.RemoveFirstDeletesFirstIndex` | fabricdw/common/config.py:148-157 | `list.remove` drops exactly the entry at the first index carrying the name, and it fails exactly when the scan finds nothing |
| `Registry.RemoveFirstIgnoresRoot` | fabricdw/common/config.py:63-66 | removal depends only on the name of the record passed in, not its root |
| `Registry.RemoveFirstDropsOne` | fabricdw/common/config.py:148-150 | entries before the removed one are kept and carry other names; later entries move down one place; the multiset loses exactly the removed entry |
| `Registry.RemoveFirstKeepsUnique` | fabricdw/common/config.py:148-150 | with unique names, a removal keeps names unique and leaves no entry with the removed name |
| `Registry.AppendFreshKeepsUnique` | fabricdw/common/config.py:138-141 | appending a name that lookup does not find keeps names unique, and lookup then finds the new record |
| `Registry.GuardedOpsKeepUnique` | fabricdw/common/config.py:97-150 | any run of creates guarded by `ensure_does_not_exist`, and of removals, keeps names unique |
| `Registry.Config.constructor` | fabricdw/common/config.py:121-123 | the object holds the given defaults and list |
| `Registry.Config.ToDict` | fabricdw/common/config.py:132-136 | reading the result back gives this object's defaults and installations |
| `Registry.Config.GetInstallation` | fabricdw/common/config.py:152-157 | returns none exactly when no entry has the name; otherwise returns the first entry with the name; the list is not modified |
| `Registry.Config.CreateNewInstallation` | fabricdw/common/config.py:138-146 | appends `(name, root)` at the end with no uniqueness check; earlier entries and the defaults are unchanged |
| `Registry.Config.RemoveInstallation` | fabricdw/common/config.py:148-150 | drops the entry at the first index with an equal name; otherwise raises ValueError and leaves the list unchanged |
| `Registry.Config.EnsureExists` | fabricdw/common/config.py:85-95 | a live record is returned and nothing changes; a stale record is dropped when `remove_if_missing` is set, then InstallationDoesNotExist is raised; an unregistered name raises ValueError when `remove_if_missing` is set; with the flag clear, nothing changes |
| `Registry.Config.EnsureExistsIntended` | fabricdw/common/config.py:85-95 | the corrected validator: every name without a live record raises InstallationDoesNotExist; only a stale record is dropped |
| `Registry.Config.EnsureDoesNotExist` | fabricdw/common/config.py:97-100 | raises InstallationAlreadyExist, carrying the first record with that name, exactly when lookup finds one, whether or not its root is live; never changes the list |
| `Registry.ConfigFromValue` | fabricdw/common/config.py:125-130 | builds a fresh `Config` holding what `from_dict` yields, or raises its error |
| `Registry.LoadMissingFile` | fabricdw/common/config.py:160-168 | with no file, the config has no installations and fallback defaults |
| `Remove.Decide` | fabricdw/installations/remove.py:17-31 | returns True exactly for a found record that is stale or was confirmed; the root is deleted exactly when the record is live and the answer is yes; absent exactly when no record was found |
| `Remove.AnswerMattersOnlyWhenAsked` | fabricdw/installations/remove.py:22-26 | the answer changes the outcome exactly when the record is live, that is, when the question is asked |
| `Remove.Filesystem.RemoveDir` | fabricdw/installations/remove.py:26 | the path is no longer live afterwards, unless the OS refuses and the error propagates |
| `Remove.RemoveInstallationCommand` | fabricdw/installations/remove.py:9-14 | absent name: nothing changes. Stale record: dropped without deleting. Confirmed: exactly that root is deleted, once, then the first entry with the name is dropped. Declined: nothing changes. A failed deletion escapes and leaves the record in place |

## Left out

- File I/O: reading and writing the JSON file (`_load_config`'s `open`/`json.load`, `write_config`) is not modelled. Only the dict level is modelled, plus the dict synthesised for a missing file.
- The module-global `CONFIG` is replaced by an explicit `Config` receiver.
- Presentation: colorama colours, `pretty_name`, `__str__`, exception messages and every `print` are not modelled.
- `yes_no_question` and `remove_dir` live in `fabricdw.common`, which is not part of this model. The answer is a parameter. `Filesystem.RemoveDir` tracks only the root's own liveness, not the directories beneath it, and a refused deletion leaves nothing partly deleted.
- `os.path.exists`/`isdir` are reduced to membership in a set of live directory paths.
- `InvalidCombinationException`, `VersionChoice` and the `DictSerialization` base class are not modelled: this logic does not use them.
- Numbers are JSON values holding a `real`. The fallback 6 is stored as 6.0, and Python's int/float distinction is not kept. No arithmetic is done on them.
- `Serialization.InstallationFromDict`: raises TypeError when `name` or `root` is not a string, where Python would store any value.
- `argparse.Namespace` is replaced by the name as a `string`.
- `Config.create_new_installation`'s `print_message` flag controls only output and is dropped.

## Findings

| source | as written | input that shows it | evidently intended | confidence | as-written member | corrected member |
|---|---|---|---|---|---|---|
| fabricdw/common/config.py:90-91 | `ensure_exists` calls `remove_installation(Installation(name, ""))` whenever the name has no live record, including when no record has the name, and `list.remove` then raises `ValueError` | an empty registry and `ensure_exists("x")` with the default `remove_if_missing=True` (see `Registry.EnsureExistsUnregisteredCounterexample`) | raise `InstallationDoesNotExistError("x")`; drop a record only when a stale one exists | high (not executed) | `Registry.Config.EnsureExists` | `Registry.Config.EnsureExistsIntended` |
