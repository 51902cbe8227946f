# kodi-mock core in Dafny

This project models the parts of the kodi-mock shim that hold logic of their
own. The shim is a mock of two host-framework modules, `xbmcvfs` and
`xbmcaddon`. The modelled parts are:

- **Special-path translation** (`translatePath`). A path that does not start
  with `special://` comes back unchanged. Otherwise the path is cut with
  `path.split("/", 3)[2:]` into a root name and a remainder. The root name is
  looked up in the virtual-root table (`kodi_paths`). An unknown root raises
  `ValueError`. A known root is joined with the remainder's `/`-separated
  pieces by `os.path.join`.
- **Directory partition** (`listdir`). The entries of a directory are split
  into sub-directories and files by asking `os.path.isfile` about each
  joined entry path. Order is kept within each list.
- **Addon accessor** (`Addon`). This is a settings store over explicit
  state: the active plugin id, the addon registry, and the module-wide
  override table `mock_data["setting"]`. Reads prefer the override table.
  Writes go only to the addon's own settings. Typed setters refuse
  wrong-typed values with False and leave the state unchanged.

Layout:

- `base.dfy` (`Base`): `Option` and `Result`. `Err` stands for a Python exception.
- `text.dfy` (`Text`): Python's `str.startswith`, `str.find`, `str.split`
  with and without `maxsplit`, and `sep.join`, over `seq<char>`.
- `posix_path.dfy` (`PosixPath`): `os.path.join` with POSIX semantics. An
  absolute piece restarts the path. Otherwise `/` is inserted unless the
  path built so far is empty or already ends with `/`.
- `vfs.dfy` (`Vfs`): `TranslatePath`, with the root table as a
  `map<string, string>` parameter, and the `Listdir` method.
- `addon.dfy` (`KodiAddon`): the `Addon` accessor. The state is an `Env`
  value threaded through the setters, and an accessor is the registry id
  of the record it holds. Python's runtime types are the tags of `Value`:
  `VBool | VInt | VStr | VFloat`. `IsInstanceInt` holds for `VBool`,
  because Python's `bool` is a subclass of `int`.

Collaborators outside the two source files become inputs:
- `kodi_paths` is the `roots` parameter.
- `plugin_id` and `avail_addons` are fields of `Env`.
- The directory listing and `os.path.isfile` are parameters of `Listdir`.
- `ensure_unicode` is the `toUnicode` parameter of the string and int setters.

`ensure_native_str` and `safe_path` are taken as the identity on text. Both
come from `addondev.utils`, which is not part of this model.

Behaviour the model makes explicit:
- `special://home`, with no `/` after the root name, fails at the two-way
  unpacking. It never reaches the root lookup, even when `home` is a known
  root.
- Empty pieces of the remainder do not produce doubled separators, because
  `os.path.join` adds nothing before a piece when the path already ends in
  `/`. So `special://r/a//b` becomes `<root>/a/b`, and `special://r/`
  becomes `<root>/`.
- `setSetting` stores the value exactly as given. So `getSettingBool` is
  true only for the texts `"true"` and `"1"`, never for a stored `True` or
  `1` that is not text. This follows Python's `==`.

Two details of the code fix the model's shape:
- `path.split("/", 3)` makes at most three cuts, so it yields up to four
  tokens. `[2:]` keeps tokens 3 and 4, the root name and the remainder.
- `os.path.join` is fixed to its POSIX form.

## Model

| member | source | states |
|---|---|---|
| Text.SplitMax | xbmcvfs.py:444 | `split(sep, maxsplit)` yields at least one and at most maxsplit+1 pieces. |
| Text.SplitMaxRejoins | xbmcvfs.py:444 | Joining the pieces of `split(sep, maxsplit)` with the separator gives back the input. |
| Text.SplitMaxPieces | xbmcvfs.py:444 | No piece of `split(sep, maxsplit)` except the last holds the separator. The last holds none either when fewer than maxsplit splits were made. |
| Text.Split | xbmcvfs.py:451 | `split("/")` yields at least one piece, and no piece holds `/`. |
| Text.SplitRejoins | xbmcvfs.py:451 | Joining the pieces of `split(sep)` with `sep` gives back the input. |
| Text.SplitJoinWith | xbmcvfs.py:451 | The inverse of `SplitRejoins`, so splitting undoes joining: for one or more pieces free of the separator, `split(sep.join(pieces)) == pieces`. |
| PosixPath.Join | xbmcvfs.py:451 | `os.path.join(a)` with no pieces is `a` (as at line 93 and here), and the join is the last piece alone when that piece is absolute. |
| PosixPath.JoinEndsWithLast | xbmcvfs.py:451 | `os.path.join(a, *pieces)` with at least one piece ends with the last piece. |
| PosixPath.JoinAbsoluteRestarts | xbmcvfs.py:451 | An absolute piece discards everything joined before it: the join equals the join starting from that piece with the pieces after it. |
| PosixPath.JoinKeepsBase | xbmcvfs.py:451 | When no piece is absolute, `os.path.join(base, *pieces)` begins with `base`. |
| PosixPath.JoinPlain | xbmcvfs.py:451 | For a non-empty base not ending in `/` and non-empty pieces free of `/`, `os.path.join` is the base, `/`, and the pieces joined by `/`. |
| PosixPath.JoinEmptyPieces | xbmcvfs.py:451 | An empty piece adds no doubled separator (`join("/r", "a", "", "b") == "/r/a/b"`), and a trailing empty piece leaves a trailing `/` (`join("/r", "") == "/r/"`). |
| Vfs.TranslatePath | xbmcvfs.py:438-441 | A path that does not start with `special://` is returned unchanged. |
| Vfs.TranslatePathReadsRootName | xbmcvfs.py:444-451 | For a special path, the root name is exactly the text between `special://` and the next `/`. With no such `/` the call fails at the unpacking (one token). An unknown root fails with `NotAValidRootDir(root)`. A known root gives the join of the real root with the remainder's `/`-split pieces. |
| Vfs.TranslatePathFails | xbmcvfs.py:440-451 | `translatePath` fails if and only if the path is special and either no `/` follows the root name or the root is not in the table. |
| Vfs.TranslatePathUnderRoot | xbmcvfs.py:447-451 | With a known root, translation succeeds and the result begins with the mapped real root. |
| Vfs.TranslatePathPlain | xbmcvfs.py:450-451 | When the real root does not end in `/` and the remainder has no empty piece, the result is the real root, `/`, and the remainder. |
| Vfs.TranslateBuiltPath | xbmcvfs.py:444-451 | Building `special://<root>/<p1>/…/<pn>` from a `/`-free root name and non-empty `/`-free pieces, then translating it, gives `<real root>/<p1>/…/<pn>`. |
| Vfs.TranslatePathExampleKnown | xbmcvfs.py:430 | `special://masterprofile/script_data` with `masterprofile` mapped to `/home/user/XBMC/UserData` translates to `/home/user/XBMC/UserData/script_data`. |
| Vfs.TranslatePathExampleUnknown | xbmcvfs.py:447-449 | `special://unknown/x` fails with `NotAValidRootDir("unknown")` when `unknown` is not a root. |
| Vfs.TranslatePathExampleNoSlash | xbmcvfs.py:444 | `special://home` fails at the unpacking even though `home` is a known root. |
| Vfs.OfKindMembers | xbmcvfs.py:92-97 | A name is in the files (or dirs) selection if and only if it is listed and `isfile` says yes (or no) about its joined path. |
| Vfs.OfKindPartition | xbmcvfs.py:92-97 | As multisets, the dirs and files selections together are exactly the listing. Every entry lands in exactly one of them. |
| Vfs.OfKindCount | xbmcvfs.py:89-100 | The lengths of dirs and files add up to the number of entries. |
| Vfs.OfKindOrdered | xbmcvfs.py:89-100 | Each selection is a subsequence of the listing, so the listing order is kept. |
| Vfs.SelectionFacts | xbmcvfs.py:89-100 | For the two selections together: membership matches the `isfile` answer in both directions, they partition the listing as multisets, their lengths sum to the listing's, and each keeps the listing order. |
| Vfs.Listdir | xbmcvfs.py:77-100 | The loop builds exactly the dirs and files selections. Membership matches the `isfile` classification in both directions. The multiset partition, length sum and order preservation all hold. When the OS listing fails, its error is passed through. |
| KodiAddon.NewAddon | xbmcaddon.py:38-45 | An omitted id resolves to the active plugin id. Construction succeeds exactly when the resolved id is in the registry, and otherwise fails with `UnknownAddonId` for that id. |
| KodiAddon.NewAddonDefault | xbmcaddon.py:39-40 | `Addon()` behaves as `Addon(plugin_id)`. |
| KodiAddon.GetAddonInfo | xbmcaddon.py:65 | Returns the property's text, or `""` for a property the record lacks. It is total: no failure case exists. |
| KodiAddon.GetLocalizedString | xbmcaddon.py:79 | Succeeds exactly when the id is defined and returns its string. Otherwise it fails with `MissingString(id)`, with no fallback. |
| KodiAddon.GetSetting | xbmcaddon.py:93-96 | An override value wins. Otherwise the addon's stored value is returned. A key in neither table fails with `MissingSetting(k)`. |
| KodiAddon.GetSettingBool | xbmcaddon.py:110-111 | True exactly when the resolved value is the text `"true"` or `"1"`. Fails exactly when `getSetting` does. |
| KodiAddon.GetSettingString | xbmcaddon.py:153 | An override value wins. Otherwise it succeeds exactly when the addon stores the key and returns the stored value. A key in neither table fails with `MissingSetting(k)`. |
| KodiAddon.SetSetting | xbmcaddon.py:174-175 | Returns True. It writes `k := value` into the addon's own settings only. The override table, the active id, the registry's key set, every other addon, and the record's info and strings are unchanged. |
| KodiAddon.Lower | xbmcaddon.py:193 | `.lower()` keeps the length, maps each ASCII capital to its small letter and leaves every other character alone. |
| KodiAddon.SetSettingBool | xbmcaddon.py:193 | Accepts exactly bool values. A bool is stored as the text `"true"` or `"false"`, which is `str(value).lower()`. Any other value returns False and leaves the state unchanged. |
| KodiAddon.SetSettingString | xbmcaddon.py:248 | Returns True and stores `ensure_unicode(value)` under `k` in the addon's own settings only. The override table, the active id, the registry's key set, every other addon, and the record's info and strings are unchanged. |
| KodiAddon.SetSettingInt | xbmcaddon.py:211 | Accepts exactly ints, bools included, and then acts as `setSettingString`. Any other value returns False and leaves the state unchanged. |
| KodiAddon.SetSettingThenGet | xbmcaddon.py:93-96 | After writing `k`, `getSetting(k)` still returns the override when `k` has one. Otherwise it returns the value written. The accessor stays bound. |
| KodiAddon.SetSettingFrame | xbmcaddon.py:174-175 | A write changes no other read. Every other (addon, key) setting, every localized string and every info property reads as before, and every bound accessor stays bound. |
| KodiAddon.SetSettingBoolRoundTrip | xbmcaddon.py:193 | With no override for `k`, `setSettingBool(k, b)` is accepted and `getSettingBool(k)` then yields `b`. |
| KodiAddon.SetSettingStringRoundTrip | xbmcaddon.py:248 | With no override and a normaliser that leaves text alone, text stored by `setSettingString` reads back unchanged through `getSettingString`. |
| KodiAddon.SetSettingIntStores | xbmcaddon.py:211 | With no override, an int or bool given to `setSettingInt` reads back through `getSetting` as its normalised form. |

## Left out

- `copy`, `deleteFile`, `exists`, `mkdir`, `mkdirs`, `rename`, `rmdir`, `File` and `Stat` (xbmcvfs.py:20-187, 191-414) are direct operating-system calls inside try/except. They have no logic to state.
- The OS side of `listdir` is left out. The entry list and the `isfile` answers are inputs, and a failing `os.listdir` is an input `None` that comes back as `OsError`.
- `getSettingInt` and `getSettingNumber` (xbmcaddon.py:113-139) are left out. They parse text with Python's `int()` and `float()`, which are not modelled.
- `setSettingNumber` (xbmcaddon.py:213-230) is left out because it checks for a Python float. `VFloat` exists only so that the int and bool setters have a value to refuse.
- `openSettings` (xbmcaddon.py:156-158) is a no-op with nothing to state.
- Whatever `ensure_unicode` does to a non-text value is left open. It is the opaque `toUnicode` parameter, so a `setSettingInt` followed by `getSettingInt` round trip cannot be stated.
- `ensure_native_str` and `safe_path` are treated as the identity. Their module is not part of this model.
- KodiAddon.GetAddonInfo: models only text properties. In the code, `getattr` on the record could also return a non-text attribute such as the `strings` or `settings` table, passed through `ensure_native_str`.
- That `translatePath` never modifies the root table holds by construction. The table is an immutable argument, so no member states it.
- Python 2 `str`/`unicode` distinctions are not modelled. Text is `seq<char>`.
- `Lower` lowercases only ASCII letters. It is applied only to `"True"` and `"False"`.
- KodiAddon.SetSettingInt: follows Python 3 ints, where every integer is an `int`, so any `VInt` is accepted. Under Python 2 a value too large for `int` is a `long`, which `isinstance(value, int)` refuses, so `setSettingInt` would return False there.
- Registry records are assumed distinct and never rebound after construction. An accessor is modelled as the registry id, looked up on every call, while Python captures the record object once (xbmcaddon.py:43). The two agree only under that assumption. Two ids sharing one record object would let a write through one accessor show through the other, which `SetSettingFrame` rules out.
