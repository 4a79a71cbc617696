# BeneDict in Dafny

A model of the core of BeneDict, a Python library of attribute-addressable
dictionaries. It has two parts.

- **Containers.** `BeneDict` (and its subclass `Config`) and
  `OrderedBeneDict` are dicts whose string keys can also be read as
  attributes. Their setter (`__setattr__`, aliased as `__setitem__`):
  - refuses the protected `builtin_*` names;
  - rewraps every dict value as a fresh instance of the container's own
    class, rebuilding lists and tuples around their dict elements;
  - writes the result to both the item store and the attribute store.

  Because string keys become instance attributes, a data key `items` hides
  the `items` method of a BeneDict, Config or OrderedBeneDict instance.
  The walk and `_has_req` call `.items()` and then raise TypeError.

  The constructors feed their entries through that setter in order.
  `deepcopy` rebuilds an instance from itself, and `ezdict_to_dict` strips
  the wrappers again.
- **Configuration extender.** `_fill_default_config` walks a tree of
  defaults over a user's config tree.
  - Missing keys are copied from the defaults.
  - Placeholder strings (`_int_`, `_enum[a, b]_`, ...) mark required
    entries and type checks.
  - A dict against a non-dict is a shape error.
  - Two sub-dicts are merged recursively.
  - Every ConfigError it raises quotes the dotted path of the key it is
    about, except the empty-enum error of a malformed `_enum[]_`. The walk
    can also raise TypeError (a data key `items` that hides `dict.items`,
    a non-string key on a path) and the setter's ValueError.

Python values are a datatype `Values.Value`. A dict is an insertion-ordered
list of entries under first-match lookup, tagged with its class
(`Values.Kind`: plain `dict`, `BeneDict`, `Config` or `OrderedBeneDict`). A
raised exception is an `Err` of `Values.Result`.

The pure parts are functions with lemmas about them:
- placeholder recognition, `_has_req`, key paths and messages: `Placeholders`, `Strings`;
- the setter and `cls(d)`: `Normalize`;
- `ezdict_to_dict`: `Unwrap`;
- the protected-name tables: `Names`;
- the walk: `DefaultFill`.

The parts that change state are imperative:
- `_get_special_methods` is a method with nested loops;
- `_fill_default_config` is a method whose loop assigns into the config;
- a container instance is a class, `Containers.Container`. It holds the
  item store as a `seq<Entry>` and the attribute store as a `map`. Its
  methods (`Set`, `InitBene`, `InitOrdered`, `DeepCopy`, `Extend`, ...)
  loop over the entries and are proved against the pure functions.

The class invariant `Valid()` says two things:
- every attribute mirrors a string-keyed item;
- every stored value is in the normal form the setter produces.

## Model

| member | source | states |
|---|---|---|
| Names.SpecialMethods | benedict/__init__.py:15-24 | the nested loops produce the ten base names followed by the eight `load/dump x s/'' x json/yaml` names; the protected list is each of them prefixed by `builtin_`, and the native list is the names followed by the protected list (36 and 18 entries) |
| Names.GeneratedName | benedict/__init__.py:19-22 | the name appended for action `a`, mode `m` and format `f` is the method name at position `10 + 4a + 2m + f` |
| Names.NextName | benedict/__init__.py:19-22 | each append extends the built prefix of the method list by exactly one name |
| Names.Prefixed | benedict/__init__.py:23 | the list comprehension keeps the length, and each element is `builtin_` followed by the name at the same position |
| Names.PrefixedIff | benedict/__init__.py:23 | a name is in a prefixed list exactly when it starts with `builtin_` and the rest is in the original list |
| Names.BeneProtectedIff | benedict/__init__.py:237-254 | a name is protected on BeneDict exactly when it is `builtin_` followed by one of the eighteen method names |
| Names.BeneNamesPlain | benedict/__init__.py:4-5 | no BeneDict method name itself starts with `builtin_` |
| Names.BuiltinName | benedict/ordered.py:17-18 | `_builtin_name(m)` is `builtin_` followed by `m` |
| Names.OriginalName | benedict/ordered.py:21-22 | `_original_name` drops the first eight characters, giving the empty string for a shorter name |
| Names.BuiltinRoundTrip | benedict/ordered.py:17-26 | for every `m`, `_is_builtin(_builtin_name(m))` holds and `_original_name(_builtin_name(m)) == m` |
| Names.OriginalRoundTrip | benedict/ordered.py:17-26 | a builtin name is the builtin name of its original name |
| Names.OrderedNamesPlain | benedict/ordered.py:180-203 | none of the 24 listed ordered method names starts with `builtin_` |
| Names.OrderedProtectedIff | benedict/ordered.py:180-203 | a name is protected on OrderedBeneDict exactly when it is the builtin name of one of the 24 listed methods |
| Normalize.ProtectedIff | benedict/__init__.py:146-148 | the setter of each class refuses exactly the names on its own protected list (BeneDict's list for BeneDict and Config, the fixed table for OrderedBeneDict) |
| Normalize.MethodNamesStorable | benedict/__init__.py:146-148 | a plain method name such as `keys` is never refused, on either class, while its `builtin_` alias always is |
| Normalize.Normalize | benedict/__init__.py:149-156 | non-collection values are stored unchanged. A dict becomes an instance of the container's class. A list stays a list of the same length. A tuple becomes a list on BeneDict and stays a tuple on OrderedBeneDict |
| Normalize.NormalizeElems | benedict/ordered.py:83-85 | the rebuilt elements keep the number of elements |
| Normalize.ElemsContents | benedict/__init__.py:149-151 | once rebuilt, each dict element becomes the container's class built from it, and every other element is unchanged, position by position |
| Normalize.ElemsFail | benedict/__init__.py:149-151 | rebuilding a list or tuple fails exactly when one of its dict elements cannot be constructed |
| Normalize.Construct | benedict/__init__.py:132-143 | `cls(d)` yields an entry list with distinct keys |
| Normalize.SetAll | benedict/__init__.py:137-138 | setting entries in order keeps the keys distinct |
| Normalize.SetEntry | benedict/__init__.py:145-160 | the setter keeps the keys of the store distinct |
| Normalize.SetEntryMeaning | benedict/__init__.py:145-160 | a protected name raises ValueError with the class's message, and the setter fails exactly when the name is not allowed or the value cannot be normalised. On success the normalised value is stored under the name, no other key changes, and a new key is appended at the end |
| Normalize.ProtectedError | benedict/__init__.py:146-148 | setting a protected name raises ValueError; OrderedBeneDict words it as "Cannot override name(): OrderedBeneDict protected method" (benedict/ordered.py:80-82), and BeneDict and Config as "Cannot override name: BeneDict protected method". `SetEntryMeaning` states that a protected name gets exactly this error |
| Normalize.SetEntryFails | benedict/ordered.py:78-95 | the setter of each class fails exactly on an entry whose name it refuses or whose value cannot be normalised |
| Normalize.SetEntryPut | benedict/ordered.py:91-93 | a successful set stores the normalised value with dict insertion semantics |
| Normalize.Template | benedict/__init__.py:139-143 | the class-attribute pass adds `extend` as data on a Config unless the entries already hold it, keeps every existing key and value, and leaves BeneDict and OrderedBeneDict unchanged |
| Normalize.SetAllFails | benedict/__init__.py:137-138 | setting the entries fails exactly when some entry from the current position on fails |
| Normalize.SetAllStep | benedict/ordered.py:73-76 | entries are set one at a time, in order: a failing entry stops the loop, otherwise its normalised value is put before the next one |
| Normalize.ConstructFails | benedict/__init__.py:132-143 | `cls(d)` fails exactly when some entry of `d` cannot be set |
| Normalize.SetAllContents | benedict/__init__.py:137-138 | with distinct source keys, the result has the source's keys in source order, and each key holds its normalised source value |
| Normalize.SetAllOnto | benedict/ordered.py:73-76 | setting distinct entries onto a store that already holds some keeps its keys in order and appends the new keys in entry order; a key the entries do not mention keeps its value, and each entry's key holds its normalised value |
| Normalize.ConstructContents | benedict/__init__.py:132-143 | `cls(d)` has the keys of `d` in order (then `extend` on a Config), each holding its normalised value |
| Normalize.NormalizeSound | benedict/__init__.py:149-156 | every value the setter stores is in normal form: a dict is an instance of the container's class in normal form, and so is each direct dict element of a list or tuple. A dict two sequences deep is left as it was |
| Normalize.ElemsSound | benedict/__init__.py:149-151 | every dict element of a rebuilt list is in normal form |
| Normalize.ConstructSound | benedict/__init__.py:132-143 | a constructed instance is in normal form |
| Normalize.TemplateSound | benedict/__init__.py:139-143 | the class-attribute pass keeps the normal form |
| Normalize.SetAllSound | benedict/__init__.py:137-138 | setting entries keeps the store in normal form |
| Normalize.SetEntrySound | benedict/__init__.py:157-158 | one set keeps the store in normal form |
| Normalize.PutEntries | benedict/__init__.py:158 | after a put, every entry is the new entry or one that was already there |
| Normalize.NormalizeIdem | benedict/__init__.py:152-156 | normalising a value already in normal form gives it back: rewrapping is idempotent |
| Normalize.ElemsIdem | benedict/__init__.py:149-151 | rebuilding a list whose dict elements are in normal form gives the same elements |
| Normalize.ConstructIdem | benedict/__init__.py:153-156 | `cls(x)` of an instance `x` in normal form has the same entries, which is the deep-copy comment's `BeneDict(BeneDict())` |
| Normalize.EntriesExt | benedict/__init__.py:157-158 | two entry lists with the same keys in the same order, and the same value under each key, are equal |
| Normalize.ReSetIdentity | benedict/__init__.py:140-143 | re-setting a stored key to its stored value (`setattr(self, k, getattr(self, k))`) changes nothing |
| Normalize.CopyIdentity | benedict/ordered.py:103-104 | constructing a class from an instance of itself in normal form gives the same entries |
| Normalize.ConstructEntriesOnly | benedict/__init__.py:137 | `cls(d)` depends on the entries of `d` only, not on its class |
| Normalize.SetAllEntriesOnly | benedict/__init__.py:137-138 | setting the entries of `d` depends on those entries only |
| Normalize.RewrapValue | benedict/__init__.py:168-169 | a value in normal form for BeneDict or Config can be normalised again by either class without error |
| Normalize.RewrapEntries | benedict/__init__.py:168-169 | the entries of a BeneDict or Config instance can be set into a new BeneDict or Config without error |
| Placeholders.LongestMatch | benedict/config.py:13 | finds the longest group length, up to a bound, at which `_enum\[(.*)\]_` matches, or reports that none does |
| Placeholders.EnumGroup | benedict/config.py:38-39 | `group(1)` of the anchored, greedy enum match: the marker matches with that group, with no longer one, and the result is `None` exactly when it does not match at all |
| Placeholders.EnumOptions | benedict/config.py:42 | the options are the stripped comma-separated pieces of the group, one per piece |
| Placeholders.Classify | benedict/config.py:20-45 | an empty enum group (and no keyword) raises ConfigError `_enum[...]_ cannot be empty`, and a string that is neither a keyword nor an enum marker is "not a placeholder" |
| Placeholders.ReqTypeCheck | benedict/config.py:16-18 | a non-string is never a placeholder, and the only error is the empty-enum one |
| Placeholders.IsReq | benedict/config.py:48-49 | `_is_req` fails exactly when `_req_type_check` does, and holds exactly when the latter returns a predicate |
| Placeholders.CaseInsensitive | benedict/config.py:19 | a string and its lower-cased form classify alike |
| Placeholders.EnumOptionsLower | benedict/config.py:19-42 | the options of a recognised enum are lower case, since the value is lower-cased before matching |
| Placeholders.EnumAccepts | benedict/config.py:42-43 | an enum accepts exactly the strings equal to one of its stripped, comma-split options |
| Placeholders.Accepts | benedict/config.py:20-43 | the predicate each placeholder keyword returns, with Python's `isinstance` semantics (a bool is an int, a tuple is a singleton). It has no contract of its own: `EnumAccepts` states the enum case, and `PresentStep` and `FillPresentRequired` state that a present value it rejects raises `Wrong type:` |
| Placeholders.EnumGroupGreedy | benedict/config.py:13 | `.*` is greedy: `_enum[a]_b]_` has group `a]_b` |
| Placeholders.EnumGroupNewline | benedict/config.py:13 | `.` does not cross a newline |
| Placeholders.EnumGroupAnchored | benedict/config.py:38 | `match` is anchored at the start: `x_enum[a]_` is no enum |
| Placeholders.ClassifyUpper | benedict/config.py:19-29 | `_INT_` is the integer placeholder |
| Placeholders.ClassifyEmptyEnum | benedict/config.py:40-41 | `_enum[]_` raises the empty-enum ConfigError |
| Placeholders.ClassifyPlain | benedict/config.py:44-45 | an unrecognised string such as `int` is not a placeholder |
| Placeholders.HasReq | benedict/config.py:52-59 | `_has_req` can raise only the empty-enum ConfigError, or the TypeError of calling a non-callable `items` entry that hides `dict.items` on a container |
| Placeholders.ItemsShadowed | benedict/config.py:53 | a BeneDict, Config or OrderedBeneDict whose data key `items` holds a non-method value, which the setter also made an instance attribute, so `.items()` calls that value. It is a predicate without a contract: `HasReq`, `FillBySteps` and `FillFirstError` state its effect |
| Placeholders.ItemsError | benedict/config.py:93 | calling the value that hides `items` raises TypeError, `'<type>' object is not callable` |
| Placeholders.ReachStep | benedict/config.py:56-57 | a path into a dict goes to the entry at its first position, then on from there |
| Placeholders.HasReqSound | benedict/config.py:52-59 | if `_has_req(d)` is true, some value at some depth of nested dicts is a placeholder |
| Placeholders.HasReqComplete | benedict/config.py:52-59 | if `_has_req(d)` is false, no value at any depth is a placeholder, a malformed enum or a container whose `items` is hidden |
| Placeholders.HasReqRaises | benedict/config.py:52-59 | if `_has_req(d)` raises, some value at some depth is a malformed enum or a container whose `items` is hidden |
| Placeholders.HasReqIff | benedict/config.py:52-59 | when nothing at any depth raises, `_has_req(d)` is true exactly when some nested value is a placeholder |
| Placeholders.KeyNames | benedict/config.py:10 | `str.join` succeeds exactly on a path of string keys, and yields their names in order |
| Placeholders.TraceKey | benedict/config.py:9-10 | `_trace_key` succeeds exactly when every key on `trace + [key]` is a string |
| Placeholders.TraceKeyPath | benedict/config.py:9-10 | the message is `key "..." ` with a trailing space, and splitting the quoted text on `.` gives back the path `trace + [key]` when no key contains a dot |
| Placeholders.ReqError | benedict/config.py:62-89 | `_raise_req_error` raises ConfigError `<prefix> key "<path>" must be <what>.` (no prefix when empty), or the join error for a non-string key |
| Placeholders.Expected | benedict/config.py:62-86 | `_raise_req_error`'s text for each keyword, from `filled` to `an enum in [<group>]`. It has no contract of its own: `ReqError` puts it after `must be ` and `ReqErrorNamesPath` states that the message quotes the path |
| Placeholders.TraceKeyExample | benedict/config.py:9-10 | `_trace_key(['model'], 'lr')` is `key "model.lr" ` |
| Placeholders.ReqErrorExample | benedict/config.py:62-89 | a wrong-typed `_float_` entry `lr` gives `Wrong type: key "lr" must be a float.` |
| Strings.Lower | benedict/config.py:19 | lower-casing keeps the length and maps each character |
| Strings.LowerIsLower | benedict/config.py:19 | a lower-cased string is lower case, and lower-casing is idempotent |
| Strings.Strip | benedict/config.py:42 | `str.strip` returns a slice with only whitespace outside it, and no whitespace at either end |
| Strings.Split | benedict/config.py:42 | `str.split(',')` gives at least one piece, none containing the separator |
| Strings.JoinSplit | benedict/config.py:10 | joining the pieces of a split with the separator gives the string back |
| Strings.SplitJoin | benedict/config.py:10 | splitting a join of separator-free pieces gives the pieces back |
| DefaultFill.Store | benedict/config.py:104 | `config[key] = v` fails exactly when the config's setter refuses the entry; otherwise it puts what that class stores for `v` and keeps the kind of the config |
| DefaultFill.Fill | benedict/config.py:92-139 | the filled config is a dict of the same kind as the config. A container default whose `items` entry hides `dict.items` raises TypeError before any entry is visited |
| DefaultFill.FillDefaultConfig | benedict/config.py:92-139 | `default_config.items()` raises when a data key hides it; otherwise the loop over the default entries, assigning into the config, computes exactly the walk `Fill` |
| DefaultFill.FillKeyStep | benedict/config.py:93-138 | one loop iteration computes exactly `FillKey` |
| DefaultFill.DecideStep | benedict/config.py:94-138 | the branch structure of the loop body computes exactly `Decide` |
| DefaultFill.FillKeyFrame | benedict/config.py:104-134 | one iteration touches only `key`, and appends it at the end when it was missing |
| DefaultFill.FillKeyKeys | benedict/config.py:104 | one iteration adds the key when it was missing and keeps the key order otherwise |
| DefaultFill.Stored | benedict/config.py:104 | what `config[key] = v` stores: a plain dict stores `v`, a container what its setter makes of it. `Store` states that the result is a `Put` of it, and `MissingStep`, `FillMissing` and `FillPresentPlain` where it is used |
| DefaultFill.MismatchError | benedict/config.py:110-115 | the inherited-placeholder message. `MismatchNamesPath` states that it is a ConfigError quoting `_trace_key(trace, key)`, or the error of building that path |
| DefaultFill.SubDictError | benedict/config.py:100-103 | the sub-dict message, showing the default. `SubDictNamesPath` states that it quotes the key's path |
| DefaultFill.ShapeError | benedict/config.py:122-133 | the two shape messages, the trace followed by `must be a singleton instead of a sub-dict` or `must have a sub-dict instead of a singleton`. `ShapeNamesPath` states that each quotes the key's path |
| DefaultFill.Decide | benedict/config.py:94-133 | the decision tree of one iteration: an error, nothing to store, or the value to store. `DecideMissing` states its three outcomes for a missing key, `PresentStep` the errors for a present key and `DecideErrorNamesPath` that every error names the key's path |
| DefaultFill.FillKey | benedict/config.py:93-138 | one iteration of the loop. On success the config is still a dict of its own class. `MissingStep` and `PresentStep` state each outcome, `FillKeyFrame` and `FillKeyKeys` what it leaves under the other keys, and `FillKeyLocal` that it reads only the config's value under its key |
| DefaultFill.FillFrom | benedict/config.py:93-138 | the loop from default entry `i` on. On success it is a dict of the config's class. `FillFromCases` states that it stops at the first failing entry with that entry's error and otherwise goes on from the updated config; `FillFromKeys` and `FillFromFrame` state its keys and its frame |
| DefaultFill.FillKeyLocal | benedict/config.py:93-106 | one iteration's outcome depends only on what the config holds under that key |
| DefaultFill.FillFromCases | benedict/config.py:93 | the loop stops at the first failing entry with its error, and otherwise goes on from the updated config |
| DefaultFill.FillFromFrame | benedict/config.py:92-139 | keys that the remaining defaults do not mention keep their values |
| DefaultFill.FillFromKeys | benedict/config.py:92-139 | from position `i` on, the walk appends the new default keys, in default order, after the config's keys |
| DefaultFill.FillFromSteps | benedict/config.py:92-139 | the walk fails exactly when some entry fails against the original config. On success, each default key holds what its own iteration stored, as if it had been processed alone |
| DefaultFill.FillKeys | benedict/config.py:92-139 | on success the keys are the config's keys followed by the default keys it lacked, so the key set is the union of the two |
| DefaultFill.FillKeepsOthers | benedict/config.py:92-139 | a config key absent from the defaults is unchanged |
| DefaultFill.FillBySteps | benedict/config.py:92-139 | the walk fails exactly when `default_config.items()` raises or some default entry fails on its own. On success, each default key holds what its own iteration stored against the original config |
| DefaultFill.FillFirstError | benedict/config.py:92-139 | a failing walk raises the error of `default_config.items()`, or else the error of the first failing default entry, which the walk reaches: every entry before it succeeds |
| DefaultFill.FillFailsAt | benedict/config.py:93 | a default entry that fails where the walk reaches it gives the walk's error |
| DefaultFill.DecideMissing | benedict/config.py:94-104 | for a missing key: a placeholder default raises `Required entry missing:` and a dict default that holds a placeholder raises the sub-dict error. Otherwise the default is stored, and success means the default is neither a placeholder nor such a sub-dict |
| DefaultFill.MissingStep | benedict/config.py:94-104 | the same three outcomes for one iteration on a missing key, with the stored value as the config's class stores it |
| DefaultFill.FillMissing | benedict/config.py:94-104 | for a key missing from the config: a placeholder default, or a dict default that `_has_req`, makes the walk fail. Where the walk reaches the key, it fails with `Required entry missing:` and the path `trace + [key]`, or with the sub-dict error naming that path. On success the key holds the stored default |
| DefaultFill.FillPresentRequired | benedict/config.py:107-120 | for a present key with a placeholder default: an inherited placeholder that differs from the default, or a value the default's predicate rejects, makes the walk fail. Where the walk reaches the key, the error is the empty-enum error, the `inherited key "..."` mismatch, or `Wrong type: key "..." must be ...`. On success one of the two held and the value is unchanged |
| DefaultFill.FillPresentPlain | benedict/config.py:121-138 | for a present key with a non-placeholder default: a dict against a non-dict, either way round, makes the walk fail, and where the walk reaches the key with the `must be a singleton instead of a sub-dict` or `must have a sub-dict instead of a singleton` error naming its path. A non-dict default leaves the user's value. Two dicts are merged recursively with the trace extended by `key`, whose error becomes the walk's error, and the result is stored back |
| DefaultFill.PresentStep | benedict/config.py:107-134 | the exact error of one iteration on a present key: the empty-enum error, the inherited mismatch, `Wrong type:`, the two shape errors, or the nested walk's error |
| DefaultFill.FillErrorNamesPath | benedict/config.py:9-10 | every error of the walk over `trace` is the empty-enum error, a TypeError, a ValueError of the setter, or a ConfigError whose message quotes `_trace_key` of a key path at or below `trace` |
| DefaultFill.FillFromErrorNamesPath | benedict/config.py:93-138 | the same for the loop from any default entry on |
| DefaultFill.FillKeyErrorNamesPath | benedict/config.py:94-138 | the same for one iteration |
| DefaultFill.DecideErrorNamesPath | benedict/config.py:94-134 | each raising branch of the loop body quotes the path of its key, and the nested walk's error quotes a path below it |
| DefaultFill.WalkErrorUp | benedict/config.py:134-138 | an error about a path below `trace + [key]` is about a path below `trace` |
| DefaultFill.ReqErrorNamesPath | benedict/config.py:62-89 | `_raise_req_error` quotes `_trace_key(trace, key)`, or raises its TypeError |
| DefaultFill.MismatchNamesPath | benedict/config.py:110-114 | the inherited-placeholder error quotes the key's path |
| DefaultFill.SubDictNamesPath | benedict/config.py:100-103 | the sub-dict error quotes the key's path |
| DefaultFill.ShapeNamesPath | benedict/config.py:122-130 | the two shape errors quote the key's path |
| Unwrap.ToDict | benedict/__init__.py:257-273 | `ezdict_to_dict` returns a plain dict with as many entries |
| Unwrap.PlainValue | benedict/__init__.py:263-272 | a list stays a list and a tuple a tuple of the same length, and values other than BeneDicts and sequences pass through unchanged |
| Unwrap.PlainElem | benedict/__init__.py:266-269 | a sequence element that is not a BeneDict passes through unchanged |
| Unwrap.ToDictAt | benedict/__init__.py:262-272 | entry `j` of the result is entry `j`'s key with its converted value |
| Unwrap.ToDictKeys | benedict/__init__.py:257-273 | the key list, hence the key set, is unchanged |
| Unwrap.ToDictGet | benedict/__init__.py:257-273 | each key maps to the conversion of what it mapped to |
| Unwrap.PlainValueElems | benedict/__init__.py:265-270 | the elements of a converted sequence are converted one by one |
| Unwrap.ToDictPlain | benedict/__init__.py:257-273 | converting a BeneDict in normal form leaves no BeneDict anywhere in the result |
| Unwrap.ToDictIdentity | benedict/__init__.py:257-273 | a tree without BeneDicts converts to itself |
| Unwrap.ToDictRoundTrip | benedict/__init__.py:257-273 | rewrapping the conversion of a BeneDict in normal form gives the BeneDict back |
| Unwrap.PlainValueRoundTrip | benedict/__init__.py:263-272 | the same round trip for any value in normal form |
| Unwrap.ConstructToDict | benedict/__init__.py:132-143 | `ezdict_to_dict(BeneDict(m)) == m` for a plain tree `m` whose keys are distinct and allowed, with no tuple as a value and only such trees as dicts, directly or as list elements, inside; and `BeneDict(m)` does not fail |
| Unwrap.NormalizeToDict | benedict/__init__.py:263-272 | the setter stores such a value without error, and converting what it stored gives the value back |
| Containers.ClassMethods | benedict/config.py:143-147 | the class attributes an instance falls back to when it has no instance attribute of that name: the dict or OrderedDict methods, the class's own methods and their `builtin_` aliases, and `extend` on a Config. `Container.GetAttr` states how lookup uses it |
| Containers.MissingAttr | benedict/config.py:143-147 | an attribute that neither the instance nor its class has raises ConfigError on a Config, because of its `__getattr__`, and AttributeError on every other class, as in the doctest at benedict/__init__.py:50-53 |
| Containers.BeneInit | benedict/__init__.py:132-138 | the item store `BeneDict.__init__(d, **kwargs)` leaves: `None` counts as `{}`, anything other than a dict raises the TypeError of `dict.update`/`dict.items`, the keywords are merged in, and every entry goes through the setter. `BeneInitContents` states its keys and values and `Container.InitBene` that the constructor computes it |
| Containers.Chars | benedict/ordered.py:73 | iterating a string yields its one-character strings |
| Containers.Unpack | benedict/ordered.py:73 | `for k, v in items` unpacks a list or tuple item only when it has exactly two elements |
| Containers.HashKey | benedict/ordered.py:73-74 | hashing a value fails only with TypeError; a tuple hashes element by element |
| Containers.HashKeyValue | benedict/ordered.py:73-74 | every dict key, iterated out as a value, hashes back to itself, tuple keys included |
| Containers.HashKeys | benedict/ordered.py:73-74 | hashing a tuple's elements from `i` on gives one key per element, and fails only with TypeError |
| Containers.SetPair | benedict/ordered.py:74 | `self.__setattr__(k, v)` under a hashed name. An unhashable name raises its TypeError only after the value has been normalised. `SetPairsCases` states both cases |
| Containers.SetPairs | benedict/ordered.py:73-74 | the loop over a sequence of pairs. `SetPairsCases` states each step, `SetPairsUpdate` that a successful loop is `dict.update` with the stored pairs, and `SetPairsContents` its keys and values |
| Containers.ArgEntries | benedict/ordered.py:61-69 | the entries of the one positional argument: a mapping gives its items, a list, tuple or string its unpacked pairs, and anything else fails the assertion. `OrderedInitContents` states the mapping case and `OrderedInitPairs` the sequence case |
| Containers.OrderedInit | benedict/ordered.py:58-76 | more than one positional argument raises ValueError. Otherwise the argument's entries are set first, then the keywords, through the setter. `OrderedInitContents`, `OrderedInitPairs` and `Container.InitOrdered` state it |
| Containers.ExtendConfig | benedict/config.py:170-172 | both arguments must be dicts; the walk fills the config, and the result becomes a Config. `ExtendConfigFails` and `ExtendConfigResult` state its errors and its result |
| Containers.BeneCopy | benedict/__init__.py:168-169 | `BeneDict(self)` never fails on an instance in normal form. It keeps the keys in order, and for a BeneDict it gives the same items |
| Containers.OrderedCopy | benedict/ordered.py:103-104 | `self.__class__(self)` on an ordered instance gives the same items |
| Containers.ExtendConfigFails | benedict/config.py:170-172 | a non-dict argument fails the assertion. Defaults whose `items` is hidden raise that TypeError. Otherwise a failing walk raises the error of one of the default entries, before any Config is built |
| Containers.ExtendConfigResult | benedict/config.py:154-172 | a successful `extend_config` is a Config in normal form. Its keys are the config's, then the default keys it lacked, then `extend`. A key the defaults do not mention holds the config's value as a Config stores it |
| Containers.BeneInitContents | benedict/__init__.py:132-143 | `BeneDict(d, **kwargs)` accepts only `None` or a dict. It holds the keys of `d` in order, then the keyword keys `d` lacks, then `extend` on a Config; a keyword key holds its keyword's value and every other key its value in `d`, each as the setter stores it |
| Containers.OrderedInitContents | benedict/ordered.py:58-76 | `OrderedBeneDict(m, **kwargs)` for a mapping `m` holds the keys of `m` in order, then the keyword keys `m` lacks; a keyword key holds its keyword's normalised value (the later set overwrites) and every other key its normalised value in `m` |
| Containers.SetPairsUpdate | benedict/ordered.py:73-74 | a successful pair loop from `i` on equals `dict.update` with one entry per pair, in order. Each entry is the pair's hashed key with its normalised value |
| Containers.SetPairsContents | benedict/ordered.py:73-74 | a successful pair loop keeps the keys already there, then appends each new hashed key once, in the order of its first pair. A key of the pairs holds the normalised value of its last pair; every other key keeps its value |
| Containers.OrderedInitPairs | benedict/ordered.py:58-76 | `OrderedBeneDict(a, **kwargs)` for a list, tuple or string `a` of pairs. Every pair unpacks and hashes. The keys are those of the pairs, each once in first-occurrence order, then the keyword keys the pairs lack. A keyword key holds its keyword's normalised value; every other key holds the normalised value of its last pair |
| Containers.MirrorLookup | benedict/__init__.py:157-158 | the attribute store has a name exactly when the item store has it as a string key, with the same value |
| Containers.MirrorPut | benedict/ordered.py:91-93 | writing a string key to both stores, and any other key to the item store only, keeps the two stores mirrored |
| Containers.SetKeepsValid | benedict/__init__.py:157-158 | an allowed set is a put of the normalised value, and keeps the instance invariant |
| Containers.SetAllCases | benedict/__init__.py:137-138 | one step of the constructor loop: BeneDict's `setattr` refuses a non-string key first, then a setter error stops the loop, otherwise the loop goes on from the updated store |
| Containers.SetPairsCases | benedict/ordered.py:73-74 | one step of the pair loop: an unpacking error, an unhashable key (raised only after the value is normalised), a setter error under the hashed key, or going on from the updated store |
| Containers.SetAllDone | benedict/ordered.py:75-76 | with no entries left the store is unchanged |
| Containers.TemplateBySet | benedict/__init__.py:140-143 | on a Config, the class-attribute pass is exactly one set of `extend` to its present value or to the method |
| Containers.FillKeyCases | benedict/config.py:93-138 | one iteration of the walk is the decision, then a set through the config's own setter |
| Containers.Container.constructor | benedict/ordered.py:58-59 | a new instance is empty and valid |
| Containers.Container.Set | benedict/__init__.py:145-160 | on error the instance is unchanged and the setter's error is returned. On success the item store is `SetEntry` of the old one, the attribute store is updated for a string key, the normalised value is returned and the invariant is kept |
| Containers.Container.GetAttr | benedict/config.py:143-147 | attribute access returns the stored value of a string key, else a class method, else raises AttributeError `'BeneDict' object has no attribute '...'` (on a Config, ConfigError `config key "..." missing.`) |
| Containers.Container.GetItem | benedict/__init__.py:45-47 | item lookup succeeds exactly when the key is stored, returning its value, and raises KeyError otherwise |
| Containers.Container.SetEach | benedict/__init__.py:137-138 | the loop of setter calls over a dict's entries computes exactly `SetAll`, keeping the invariant |
| Containers.Container.ReSetClassAttrs | benedict/__init__.py:139-143 | the class-attribute loop leaves exactly `Template` of the store, in normal form |
| Containers.Container.InitBene | benedict/__init__.py:132-143 | `BeneDict.__init__(d, **kwargs)` (with `None` as `{}`) fails exactly when `BeneInit` does, with its error. On success the store is `BeneInit`'s result, valid and in normal form |
| Containers.Container.SetPairsEach | benedict/ordered.py:73-74 | the loop over a sequence of pairs fails exactly when `SetPairs` does, with its error; on success the store is `SetPairs`' result. The invariant is kept. With `SetPairsContents`, the new keys come in first-occurrence order and the last pair of a key wins |
| Containers.Container.InitOrdered | benedict/ordered.py:58-76 | `OrderedBeneDict.__init__(*args, **kwargs)` fails exactly when `OrderedInit` does (more than one argument, a bad argument, a setter error), with its error. On success the store is `OrderedInit`'s result. `OrderedInitContents` gives its keys and values for a mapping argument; `OrderedInitPairs` gives them for a sequence of pairs: first-occurrence order, the last pair winning, keywords last |
| Containers.Container.DeepCopy | benedict/__init__.py:168-169 | `deepcopy` makes a fresh valid instance. An ordered copy is OrderedBeneDict and every other copy a BeneDict. BeneDict and ordered copies hold the same items, and a Config's copy is `BeneDict(self)` with the same key order |
| Containers.Container.FillStep | benedict/config.py:93-138 | one iteration of `_fill_default_config` on the instance itself computes `FillKey` of its snapshot, and leaves the store unchanged on error |
| Containers.Container.Extend | benedict/config.py:149-151 | `Config.extend` asserts that the defaults are a dict. A hidden `items` on the defaults raises its TypeError and leaves the instance as it was. Otherwise it fills the instance in place so that its snapshot becomes `Fill` of the old one, or raises the walk's error |
| Containers.Container.ExtendEach | benedict/config.py:151 | the in-place walk over the defaults' entries, whose loop invariant is that finishing the walk from the current state gives `Fill` of the starting state |
| Values.Get | benedict/config.py:94-106 | `key in config` and `config[key]`: a key has a value exactly when it is among the keys |
| Values.Find | benedict/__init__.py:158 | dict lookup finds the first entry under a key, and finds none exactly when the key is absent |
| Values.Put | benedict/__init__.py:158 | `dict.__setitem__` makes the key hold the value, keeps every other key, replaces in place or appends at the end, and keeps keys distinct |
| Values.Update | benedict/__init__.py:135-136 | `dict.update(d, **kwargs)` keeps keys distinct |
| Values.UpdateKeys | benedict/__init__.py:135-136 | with distinct keywords, `dict.update` keeps the keys of `d` in order and appends the keyword keys `d` lacks, in keyword order |
| Values.UpdateGet | benedict/__init__.py:135-136 | after `dict.update`, a keyword key holds its keyword's value and every other key what it held in `d` |
| Values.UpdateCons | benedict/__init__.py:135-136 | `dict.update` with a leading entry first puts that entry, then the rest |
| Values.FirstNew | benedict/ordered.py:73-74 | the keys of a sequence missing from those already there, each once: a key is in it exactly when it is in the sequence and not already there, and appending it keeps the keys distinct |
| Values.LastAt | benedict/ordered.py:73-74 | the position of the last entry under a key: it holds the key, and no later entry does |
| Values.UpdateKeysAll | benedict/ordered.py:73-74 | for entries that may repeat a key, `dict.update` keeps the keys already there and appends each new key once, in the order of its first occurrence |
| Values.UpdateGetAll | benedict/ordered.py:73-74 | for entries that may repeat a key, after `dict.update` a key of the entries holds the value of its last entry, and every other key keeps its value |
| Values.NewKeys | benedict/config.py:104 | the keys appended by the walk are exactly the default keys that the config lacked |

## Left out

- I/O is not modelled: the JSON and YAML `load`/`dump` methods, `benedict/data_format.py`, pickling through `__getstate__`/`__setstate__`, and `__str__`. They call into foreign libraries or the file system.
- The reflective computation of the ordered protected list in `OrderedBeneDict.__new__` (`dir(cls)` and `setattr` on the class) is left out. The fixed alias table of `benedict/ordered.py:180-203` stands for it, as the class body lists it.
- `benedict.core` is not part of this model. Its `BeneDict` is taken to be the one of `benedict/__init__.py`. `benedict_to_ordereddict` and the ordered `to_dict` depend on it and are left out.
- `_add_protected_methods` and the class-level `builtin_` aliases are modelled only as names: attribute lookup of an alias yields the method named by the alias, not the aliased function.
- On an error the source has already mutated the instance (or the config, in `_fill_default_config`) up to the failing entry. The model returns only the error for the constructors and for `Fill`.
- Containers.Container.Extend: on an error, the partially filled state the source leaves behind is not stated.
- Containers.Container.DeepCopy: for a Config, the copy is stated as `BeneDict(self)` and by its keys, not value by value, because its nested Configs are rebuilt as BeneDicts.
- Aliasing is not modelled. `dict.update(d, **kwargs)` mutates the caller's `d`, and `_fill_default_config` returns the very dict it was given. The model works on values, and nested containers are fresh values, so no two containers share one.
- Messages are the source's format strings, except two. The `repr` of a sub-dict in the sub-dict error is kept as a value. Python's own TypeError texts are approximated.
- Lower-casing maps ASCII letters only. The fixed keywords are ASCII, but Unicode case mapping of other characters is not modelled.
- Unhashable keys (lists and dicts) cannot be dict keys in the model, and a tuple key hashes only when its elements do. A pair whose key is unhashable raises TypeError at the point where the item store would hash it.
- HashKey: a method is hashable in Python but is treated as unhashable here, so a pair keyed by a method raises TypeError in the model.
- A dict keyed by `True` or `2.0` keeps the key `1` or `2`: the model stores the integer the key equals, not the original object, so iterating such a dict yields the integer.
- ItemsShadowed: a method stored under the data key `items` would be called by `.items()`; the model treats it as not hiding `dict.items`.
- A data key `extend` on a Config instance replaces the `extend` method for attribute access; `Containers.Container.Extend` models the class's method only.
- Subclasses other than `Config`, and dunder class attributes, are not modelled. BeneDict's class body holds only dunders and native names, and `Config` adds `extend`.
- Python's runtime type quirks are kept, not corrected: a `bool` counts as an `int` under `_int_` and `_num_`. A float is only a tag, with no arithmetic on it.
- Lemmas relating the walk to its result assume the defaults have distinct keys, which Python dicts guarantee. The model's entry lists do not.
- The `extend_config` docstring (`benedict/config.py:156-165`) names `_req_` markers that the code does not recognise. The model follows the code.
