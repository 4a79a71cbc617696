/** Required-value placeholders of the configuration extender
    (`benedict/config.py`): the recognition of `_object_`, `_singleton_`,
    `_list_`, `_dict_`, `_int_`, `_float_`, `_num_`, `_str_`, `_bool_` and
    `_enum[...]_` (`_req_type_check`, `_is_req`), the search for a
    placeholder inside nested dicts (`_has_req`), and the dotted key path and
    the messages that the errors carry (`_trace_key`, `_raise_req_error`). */
module Placeholders {
  import opened Values
  import opened Strings

  /** The predicate a placeholder selects. An enum keeps the text of its
      bracket group (for the message) and the options parsed from it. */
  datatype ReqType =
    | AnyObject
    | Singleton
    | ListType
    | DictType
    | IntType
    | FloatType
    | NumType
    | StrType
    | BoolType
    | EnumType(group: string, options: seq<string>)

  const EnumOpen: string := "_enum["
  const EnumClose: string := "]_"

  /** `re.match('_enum\[(.*)\]_', s)` can succeed with a group of length `j`:
      the match is anchored at the start, `.` crosses no newline, and the
      rest of `s` after the closing `]_` is not looked at. */
  predicate EnumMatchAt(s: string, j: nat) {
    StartsWith(s, EnumOpen) && |EnumOpen| + j + |EnumClose| <= |s|
    && '\n' !in s[|EnumOpen|..|EnumOpen| + j]
    && s[|EnumOpen| + j..|EnumOpen| + j + |EnumClose|] == EnumClose
  }

  /** The longest group length not above `j` at which the marker matches. */
  function LongestMatch(s: string, j: nat): (r: Option<nat>)
    ensures r.Some? ==> r.value <= j && EnumMatchAt(s, r.value)
    ensures r.Some? ==> forall j' :: r.value < j' <= j ==> !EnumMatchAt(s, j')
    ensures r.None? ==> forall j' :: 0 <= j' <= j ==> !EnumMatchAt(s, j')
  {
    if EnumMatchAt(s, j) then Some(j)
    else if j == 0 then None
    else LongestMatch(s, j - 1)
  }

  /** `group(1)` of the marker match: the greedy `.*` takes the longest
      group after which `]_` follows. */
  function EnumGroup(s: string): (r: Option<string>)
    ensures r.Some? ==> EnumMatchAt(s, |r.value|) && r.value == s[|EnumOpen|..|EnumOpen| + |r.value|]
    ensures r.Some? ==> forall j :: |r.value| < j ==> !EnumMatchAt(s, j)
    ensures r.None? ==> forall j :: !EnumMatchAt(s, j)
  {
    if |s| < |EnumOpen| + |EnumClose| then None
    else match LongestMatch(s, |s| - |EnumOpen| - |EnumClose|)
      case None => None
      case Some(j) => Some(s[|EnumOpen|..|EnumOpen| + j])
  }

  /** `list(map(str.strip, group.split(',')))` */
  function EnumOptions(group: string): (r: seq<string>)
    ensures |r| == |Split(group, ',')| >= 1
    ensures forall i :: 0 <= i < |r| ==> r[i] == Strip(Split(group, ',')[i])
  {
    var parts := Split(group, ',');
    seq(|parts|, i requires 0 <= i < |parts| => Strip(parts[i]))
  }

  const EmptyEnum: Error := ConfigError("_enum[...]_ cannot be empty")

  /** The keyword chain of `_req_type_check` on an already lower-cased
      string; an empty enum group raises. */
  function Classify(l: string): (r: Result<Option<ReqType>>)
    ensures r.Err? <==> EnumGroup(l) == Some("") && l !in Keywords
    ensures r.Err? ==> r.error == EmptyEnum
    ensures r == Ok(None) <==> l !in Keywords && EnumGroup(l).None?
  {
    if l == "_object_" then Ok(Some(AnyObject))
    else if l == "_singleton_" then Ok(Some(Singleton))
    else if l == "_list_" then Ok(Some(ListType))
    else if l == "_dict_" then Ok(Some(DictType))
    else if l == "_int_" then Ok(Some(IntType))
    else if l == "_float_" then Ok(Some(FloatType))
    else if l == "_num_" then Ok(Some(NumType))
    else if l == "_str_" then Ok(Some(StrType))
    else if l == "_bool_" then Ok(Some(BoolType))
    else match EnumGroup(l)
      case None => Ok(None)
      case Some(g) => if g == "" then Err(EmptyEnum) else Ok(Some(EnumType(g, EnumOptions(g))))
  }

  /** The nine fixed keywords, in the order they are tried. */
  const Keywords: seq<string> :=
    ["_object_", "_singleton_", "_list_", "_dict_", "_int_", "_float_", "_num_", "_str_", "_bool_"]

  /** `_req_type_check`: only a string can be a placeholder, and it is
      lower-cased before it is classified. */
  function ReqTypeCheck(v: Value): (r: Result<Option<ReqType>>)
    ensures !v.Str? ==> r == Ok(None)
    ensures r.Err? ==> r.error == EmptyEnum
  {
    if v.Str? then Classify(Lower(v.s)) else Ok(None)
  }

  /** `_is_req` */
  function IsReq(v: Value): (r: Result<bool>)
    ensures r.Ok? <==> ReqTypeCheck(v).Ok?
    ensures r.Ok? ==> (r.value <==> ReqTypeCheck(v).value.Some?)
  {
    var rt :- ReqTypeCheck(v);
    Ok(rt.Some?)
  }

  /** The predicate each placeholder returns. `isinstance(x, int)` holds of
      a bool; a tuple is a singleton; `x in options` holds only of a string
      equal to an option. */
  predicate Accepts(rt: ReqType, x: Value) {
    match rt
    case AnyObject => true
    case Singleton => !(x.List? || x.Dict?)
    case ListType => x.List?
    case DictType => x.Dict?
    case IntType => x.Int? || x.Bool?
    case FloatType => x.Float?
    case NumType => x.Int? || x.Bool? || x.Float?
    case StrType => x.Str?
    case BoolType => x.Bool?
    case EnumType(_, options) => x.Str? && x.s in options
  }

  // ---- Recognition -------------------------------------------------------

  /** Recognition ignores case: a string and its lower-cased form classify
      alike. */
  lemma CaseInsensitive(s: string)
    ensures ReqTypeCheck(Str(Lower(s))) == ReqTypeCheck(Str(s))
  {
    LowerIsLower(s);
  }

  /** Every enum option is lower-case. The marker text is lower-cased before
      the options are cut out of it, so an option written with capitals
      accepts only the lower-cased string. */
  lemma EnumOptionsLower(s: string)
    requires ReqTypeCheck(Str(s)).Ok? && ReqTypeCheck(Str(s)).value.Some?
    requires ReqTypeCheck(Str(s)).value.value.EnumType?
    ensures var opts := ReqTypeCheck(Str(s)).value.value.options;
            forall i :: 0 <= i < |opts| ==> IsLower(opts[i])
  {
    var l := Lower(s);
    LowerIsLower(s);
    var g := EnumGroup(l).value;
    assert ReqTypeCheck(Str(s)).value.value.options == EnumOptions(g);
    SliceLower(l, |EnumOpen|, |EnumOpen| + |g|);
    GroupOptionsLower(g);
  }

  lemma GroupOptionsLower(g: string)
    requires IsLower(g)
    ensures forall i :: 0 <= i < |EnumOptions(g)| ==> IsLower(EnumOptions(g)[i])
  {
    var parts := Split(g, ',');
    forall i | 0 <= i < |EnumOptions(g)| ensures IsLower(EnumOptions(g)[i]) {
      SplitLower(g, ',', i);
      StripLower(parts[i]);
    }
  }

  lemma SliceLower(s: string, i: nat, j: nat)
    requires IsLower(s) && i <= j <= |s|
    ensures IsLower(s[i..j])
  {
    forall k | 0 <= k < j - i ensures LowerChar(s[i..j][k]) == s[i..j][k] {
      assert s[i..j][k] == s[i + k];
    }
  }

  lemma StripLower(s: string)
    requires IsLower(s)
    ensures IsLower(Strip(s))
  {
    var i, j :| 0 <= i <= j <= |s| && Strip(s) == s[i..j];
    SliceLower(s, i, j);
  }

  /** Every piece of a lower-case text's split is lower-case. */
  lemma {:induction false} SplitLower(s: string, sep: char, i: nat)
    requires IsLower(s) && i < |Split(s, sep)|
    ensures IsLower(Split(s, sep)[i])
    decreases |s|
  {
    if s != [] {
      SliceLower(s, 1, |s|);
      var rest := Split(s[1..], sep);
      if s[0] == sep {
        if i > 0 {
          SplitLower(s[1..], sep, i - 1);
        }
      } else {
        SplitLower(s[1..], sep, i);
        if i == 0 {
          var p := [s[0]] + rest[0];
          forall k | 0 <= k < |p| ensures LowerChar(p[k]) == p[k] {
            if k > 0 { assert p[k] == rest[0][k - 1]; }
          }
        } else {
          SplitLower(s[1..], sep, i);
        }
      }
    }
  }

  /** An enum accepts exactly the strings equal to one of the stripped,
      comma-separated pieces of its group. */
  lemma EnumAccepts(g: string, x: Value)
    ensures Accepts(EnumType(g, EnumOptions(g)), x)
            <==> x.Str? && exists i :: 0 <= i < |Split(g, ',')| && x.s == Strip(Split(g, ',')[i])
  {
    var opts := EnumOptions(g);
    if x.Str? && x.s in opts {
      var i :| 0 <= i < |opts| && opts[i] == x.s;
      assert x.s == Strip(Split(g, ',')[i]);
    }
  }

  /** The group of a marker is the text between `_enum[` and the last `]_`
      that no newline precedes. */
  lemma EnumGroupGreedy()
    ensures EnumGroup("_enum[a]_b]_") == Some("a]_b")
  {
    var s := "_enum[a]_b]_";
    assert EnumMatchAt(s, 4);
    assert s[6..10] == "a]_b";
  }

  lemma EnumGroupNewline()
    ensures EnumGroup("_enum[a]_\n]_") == Some("a")
  {
    var s := "_enum[a]_\n]_";
    assert s[6..10][3] == '\n';
    assert !EnumMatchAt(s, 4);
    assert s[9..11][0] != ']';
    assert !EnumMatchAt(s, 3);
    assert s[8..10][0] != ']';
    assert !EnumMatchAt(s, 2);
    assert EnumMatchAt(s, 1);
    assert LongestMatch(s, 2) == Some(1);
    assert s[6..7] == "a";
  }

  lemma EnumGroupAnchored()
    ensures EnumGroup("x_enum[a]_") == None
  {
    var s := "x_enum[a]_";
    assert s[..6][0] != EnumOpen[0];
    assert !StartsWith(s, EnumOpen);
  }

  /** Keywords are recognised in any case. */
  lemma ClassifyUpper()
    ensures ReqTypeCheck(Str("_INT_")) == Ok(Some(IntType))
  {
    assert Lower("_INT_") == "_int_";
  }

  /** An enum marker with an empty group raises. */
  lemma ClassifyEmptyEnum()
    ensures ReqTypeCheck(Str("_enum[]_")) == Err(EmptyEnum)
  {
    assert IsLower("_enum[]_");
    LowerOfLower("_enum[]_");
    assert EnumMatchAt("_enum[]_", 0);
    assert "_enum[]_"[6..6] == "";
  }

  /** A string that is no marker is not a placeholder. */
  lemma ClassifyPlain()
    ensures ReqTypeCheck(Str("int")) == Ok(None)
  {
    assert Lower("int") == "int";
  }

  // ---- `d.items()` on a container ---------------------------------------

  const ItemsKey: Key := StrKey("items")

  /** A container whose data key `items` holds a value other than a method:
      the setter made it an instance attribute, which hides the dict method,
      so `d.items()` calls the value. A plain dict has no instance
      attributes. */
  predicate ItemsShadowed(d: Value) {
    d.Dict? && d.kind != Plain && Get(d.entries, ItemsKey).Some? && !Get(d.entries, ItemsKey).value.Method?
  }

  /** Calling a value that is not callable. */
  function NotCallable(v: Value): Error {
    TypeError("'" + TypeName(v) + "' object is not callable")
  }

  /** The error `d.items()` raises on a container whose `items` is hidden. */
  function ItemsError(d: Value): (r: Error)
    requires ItemsShadowed(d)
    ensures r.TypeError?
  {
    NotCallable(Get(d.entries, ItemsKey).value)
  }

  // ---- Placeholders inside nested dicts ----------------------------------

  /** `_has_req(d)`: `d.items()`, then a scan of the entries in order that
      stops at the first placeholder or at the first sub-dict holding one; a
      malformed enum, or a hidden `items` of a sub-dict, met before such a
      placeholder raises. */
  function HasReq(d: Value): (r: Result<bool>)
    requires d.Dict?
    ensures r.Err? ==> r.error == EmptyEnum || r.error.TypeError?
    decreases d, 1
  {
    if ItemsShadowed(d) then Err(ItemsError(d)) else HasReqFrom(d, 0)
  }

  function HasReqFrom(d: Value, i: nat): (r: Result<bool>)
    requires d.Dict? && i <= |d.entries|
    ensures r.Err? ==> r.error == EmptyEnum || r.error.TypeError?
    decreases d, 0, |d.entries| - i
  {
    if i == |d.entries| then Ok(false)
    else
      var val := d.entries[i].val;
      var req :- IsReq(val);
      if req then Ok(true)
      else if val.Dict? then
        var sub :- HasReq(val);
        if sub then Ok(true) else HasReqFrom(d, i + 1)
      else HasReqFrom(d, i + 1)
  }

  /** The value reached from `v` by a path of entry positions through
      nested dicts. */
  function Reach(v: Value, p: seq<nat>): (r: Option<Value>)
    ensures p == [] ==> r == Some(v)
    decreases |p|
  {
    if p == [] then Some(v)
    else if v.Dict? && p[0] < |v.entries| then Reach(v.entries[p[0]].val, p[1..])
    else None
  }

  /** A placeholder sits at path `p` of `v`. */
  predicate ReqAt(v: Value, p: seq<nat>) {
    Reach(v, p).Some? && IsReq(Reach(v, p).value) == Ok(true)
  }

  /** The search raises at path `p` of `v`: a malformed (empty) enum
      marker sits there, or a container whose `items` is hidden. */
  predicate RaisesAt(v: Value, p: seq<nat>) {
    Reach(v, p).Some? && (IsReq(Reach(v, p).value).Err? || ItemsShadowed(Reach(v, p).value))
  }

  /** A path into the entry at position `j` of a dict. */
  lemma ReachStep(d: Value, j: nat, q: seq<nat>)
    requires d.Dict? && j < |d.entries|
    ensures Reach(d, [j] + q) == Reach(d.entries[j].val, q)
  {
    assert ([j] + q)[1..] == q;
  }

  /** A true answer points at a placeholder. */
  lemma {:induction false} HasReqSound(d: Value)
    requires d.Dict? && HasReq(d) == Ok(true)
    ensures exists p :: ReqAt(d, p)
    decreases d, 1
  {
    assert !ItemsShadowed(d);
    var j, q := HasReqFromSound(d, 0);
    ReachStep(d, j, q);
    assert ReqAt(d, [j] + q);
  }

  lemma {:induction false} HasReqFromSound(d: Value, i: nat) returns (j: nat, q: seq<nat>)
    requires d.Dict? && i <= |d.entries| && HasReqFrom(d, i) == Ok(true)
    ensures i <= j < |d.entries| && ReqAt(d.entries[j].val, q)
    decreases d, 0, |d.entries| - i
  {
    var val := d.entries[i].val;
    if IsReq(val) == Ok(true) {
      j, q := i, [];
    } else if val.Dict? && HasReq(val) == Ok(true) {
      HasReqSound(val);
      j := i;
      q :| ReqAt(val, q);
    } else {
      j, q := HasReqFromSound(d, i + 1);
    }
  }

  /** A false answer means no placeholder and nothing that raises at any
      depth. */
  lemma {:induction false} HasReqComplete(d: Value, p: seq<nat>)
    requires d.Dict? && HasReq(d) == Ok(false)
    ensures !ReqAt(d, p) && !RaisesAt(d, p)
    decreases d, 1
  {
    assert !ItemsShadowed(d);
    if p != [] && p[0] < |d.entries| {
      ReachStep(d, p[0], p[1..]);
      assert [p[0]] + p[1..] == p;
      HasReqFromComplete(d, 0, p[0], p[1..]);
    }
  }

  lemma {:induction false} HasReqFromComplete(d: Value, i: nat, j: nat, q: seq<nat>)
    requires d.Dict? && i <= j < |d.entries| && HasReqFrom(d, i) == Ok(false)
    ensures !ReqAt(d.entries[j].val, q) && !RaisesAt(d.entries[j].val, q)
    decreases d, 0, |d.entries| - i
  {
    var val := d.entries[i].val;
    if j == i {
      if val.Dict? {
        HasReqComplete(val, q);
      } else if q != [] {
        assert Reach(val, q).None?;
      }
    } else {
      HasReqFromComplete(d, i + 1, j, q);
    }
  }

  /** Raising means a malformed marker or a hidden `items` sits somewhere
      in the tree. */
  lemma {:induction false} HasReqRaises(d: Value)
    requires d.Dict? && HasReq(d).Err?
    ensures exists p :: RaisesAt(d, p)
    decreases d, 1
  {
    if ItemsShadowed(d) {
      assert RaisesAt(d, []);
    } else {
      var j, q := HasReqFromRaises(d, 0);
      ReachStep(d, j, q);
      assert RaisesAt(d, [j] + q);
    }
  }

  lemma {:induction false} HasReqFromRaises(d: Value, i: nat) returns (j: nat, q: seq<nat>)
    requires d.Dict? && i <= |d.entries| && HasReqFrom(d, i).Err?
    ensures i <= j < |d.entries| && RaisesAt(d.entries[j].val, q)
    decreases d, 0, |d.entries| - i
  {
    var val := d.entries[i].val;
    if IsReq(val).Err? {
      j, q := i, [];
    } else if IsReq(val) == Ok(false) && val.Dict? && HasReq(val).Err? {
      HasReqRaises(val);
      j := i;
      q :| RaisesAt(val, q);
    } else {
      j, q := HasReqFromRaises(d, i + 1);
    }
  }

  /** On a tree where nothing raises, `_has_req` answers exactly whether a
      placeholder sits at some depth. */
  lemma HasReqIff(d: Value)
    requires d.Dict? && forall p :: !RaisesAt(d, p)
    ensures HasReq(d) == Ok(exists p :: ReqAt(d, p))
  {
    match HasReq(d)
    case Err(_) => HasReqRaises(d);
    case Ok(b) =>
      if b {
        HasReqSound(d);
      } else {
        forall p ensures !ReqAt(d, p) {
          HasReqComplete(d, p);
        }
      }
  }

  // ---- Key paths and messages --------------------------------------------

  const KeyNotString: Error := TypeError("sequence item: expected str instance")

  /** The names of a key path; `str.join` refuses a non-string item. */
  function KeyNames(ks: seq<Key>): (r: Result<seq<string>>)
    ensures r.Ok? <==> forall i :: 0 <= i < |ks| ==> ks[i].StrKey?
    ensures r.Ok? ==> |r.value| == |ks| && forall i :: 0 <= i < |ks| ==> r.value[i] == ks[i].s
    ensures r.Err? ==> r.error == KeyNotString
  {
    if ks == [] then Ok([])
    else if !ks[0].StrKey? then Err(KeyNotString)
    else
      var rest :- KeyNames(ks[1..]);
      Ok([ks[0].s] + rest)
  }

  /** `_trace_key`: `key "a.b.c" `, the dotted path quoted, with a
      trailing space. */
  function TraceKey(trace: seq<Key>, key: Key): (r: Result<string>)
    ensures r.Ok? <==> KeyNames(trace + [key]).Ok?
    ensures r.Err? ==> r.error == KeyNotString
  {
    var names :- KeyNames(trace + [key]);
    Ok("key \"" + Join(names, ".") + "\" ")
  }

  /** The path is readable back from the message: with string keys free of
      dots, splitting the quoted text on `.` gives the key names. */
  lemma TraceKeyPath(trace: seq<Key>, key: Key)
    requires forall i :: 0 <= i < |trace| ==> trace[i].StrKey? && '.' !in trace[i].s
    requires key.StrKey? && '.' !in key.s
    ensures TraceKey(trace, key).Ok?
    ensures var t := TraceKey(trace, key).value;
            6 <= |t| && t[..5] == "key \"" && t[|t| - 2..] == "\" "
            && Split(t[5..|t| - 2], '.') == KeyNames(trace + [key]).value
  {
    var ks := trace + [key];
    assert forall i :: 0 <= i < |ks| ==> ks[i].StrKey? by {
      forall i | 0 <= i < |ks| ensures ks[i].StrKey? {
        if i < |trace| { assert ks[i] == trace[i]; }
      }
    }
    var names := KeyNames(ks).value;
    forall i | 0 <= i < |names| ensures '.' !in names[i] {
      if i < |trace| { assert ks[i] == trace[i]; }
    }
    SplitJoin(names, '.');
    var inner := Join(names, ".");
    var t := "key \"" + inner + "\" ";
    assert t[5..|t| - 2] == inner;
  }

  /** `_raise_req_error`'s description of what the value must be. */
  function Expected(rt: ReqType): string {
    match rt
    case AnyObject => "filled"
    case Singleton => "a singleton (non-list/dict)"
    case ListType => "a list"
    case DictType => "a dict"
    case IntType => "an integer"
    case FloatType => "a float"
    case NumType => "a numeric value"
    case StrType => "a string"
    case BoolType => "a boolean"
    case EnumType(group, _) => "an enum in [" + group + "]"
  }

  /** The error `_raise_req_error` raises: `<prefix> key "<path>" must be
      <expected>.`; building the path can itself raise. */
  function ReqError(trace: seq<Key>, key: Key, rt: ReqType, prefix: string): (r: Error)
    ensures TraceKey(trace, key).Ok? ==>
              r == ConfigError((if prefix == "" then "" else prefix + " ") + TraceKey(trace, key).value
                               + "must be " + Expected(rt) + ".")
    ensures TraceKey(trace, key).Err? ==> r == KeyNotString
  {
    match TraceKey(trace, key)
    case Err(e) => e
    case Ok(t) => ConfigError((if prefix == "" then "" else prefix + " ") + t + "must be " + Expected(rt) + ".")
  }

  /** Fixed example of a key path. */
  lemma TraceKeyExample()
    ensures TraceKey([StrKey("model")], StrKey("lr")) == Ok("key \"model.lr\" ")
  {
    var ks := [StrKey("model")] + [StrKey("lr")];
    assert ks == [StrKey("model"), StrKey("lr")];
    var names := KeyNames(ks).value;
    assert names == ["model", "lr"];
    assert Join(["lr"], ".") == "lr";
    assert Join(names, ".") == "model.lr";
    assert "key \"" + "model.lr" + "\" " == "key \"model.lr\" ";
  }

  /** Fixed example of a message. */
  lemma ReqErrorExample()
    ensures ReqError([], StrKey("lr"), FloatType, "Wrong type:")
            == ConfigError("Wrong type: key \"lr\" must be a float.")
  {
    assert [] + [StrKey("lr")] == [StrKey("lr")];
    assert KeyNames([StrKey("lr")]).value == ["lr"];
    var t := "key \"" + "lr" + "\" ";
    assert t == "key \"lr\" ";
    assert "Wrong type:" + " " + t + "must be " + "a float" + "."
           == "Wrong type: key \"lr\" must be a float.";
  }
}
