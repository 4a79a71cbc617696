/** The reserved method vocabulary of the two containers: the BeneDict
    native/protected lists built by `_get_special_methods`, the
    `builtin_`-name helpers of the ordered container and its fixed alias
    table, and the names each class resolves as class attributes. */
module Names {
  import opened Strings

  const Prefix: string := "builtin_"

  // ---- BeneDict (benedict/__init__.py) --------------------------------

  const BaseMethods: seq<string> :=
    ["keys", "items", "values", "get", "clear", "update", "pop", "popitem", "to_dict", "deepcopy"]

  /** The ten base names followed by load/dump x s/'' x json/yaml. */
  const BeneMethodNames: seq<string> :=
    BaseMethods + ["loads_json", "loads_yaml", "load_json", "load_yaml",
                   "dumps_json", "dumps_yaml", "dump_json", "dump_yaml"]

  /** `['builtin_' + m for m in methods]` */
  const BeneProtected: seq<string> := Prefixed(BeneMethodNames)

  /** `['builtin_' + m for m in ms]` */
  function Prefixed(ms: seq<string>): (r: seq<string>)
    ensures |r| == |ms|
    ensures forall i :: 0 <= i < |ms| ==> r[i] == Prefix + ms[i]
  {
    if ms == [] then [] else [Prefix + ms[0]] + Prefixed(ms[1..])
  }

  const Actions: seq<string> := ["load", "dump"]
  const Modes: seq<string> := ["s", ""]
  const Formats: seq<string> := ["json", "yaml"]

  /** `_get_special_methods`: the ten base names, then the nested loops over
      action, mode and format append the eight load/dump names; the
      protected list prefixes every one of them with `builtin_`, and the
      native list is the names followed by the protected list. */
  method SpecialMethods() returns (native: seq<string>, protected: seq<string>)
    ensures protected == BeneProtected
    ensures native == BeneMethodNames + BeneProtected
    ensures |native| == 36 && |protected| == 18
  {
    var methods := BaseMethods;
    for a := 0 to |Actions|
      invariant methods == BeneMethodNames[..10 + 4 * a]
    {
      for m := 0 to |Modes|
        invariant methods == BeneMethodNames[..10 + 4 * a + 2 * m]
      {
        for f := 0 to |Formats|
          invariant methods == BeneMethodNames[..10 + 4 * a + 2 * m + f]
        {
          NextName(a, m, f);
          methods := methods + [Actions[a] + Modes[m] + "_" + Formats[f]];
        }
      }
    }
    assert methods == BeneMethodNames;
    protected := Prefixed(methods);
    native := methods + protected;
  }

  /** Appending the generated name extends the prefix of the method list
      by one. */
  lemma NextName(a: nat, m: nat, f: nat)
    requires a < 2 && m < 2 && f < 2
    ensures var n := 10 + 4 * a + 2 * m + f;
            BeneMethodNames[..n] + [Actions[a] + Modes[m] + "_" + Formats[f]] == BeneMethodNames[..n + 1]
  {
    GeneratedName(a, m, f);
    var n := 10 + 4 * a + 2 * m + f;
    assert BeneMethodNames[..n + 1] == BeneMethodNames[..n] + [BeneMethodNames[n]];
  }

  /** The name the loops append for action `a`, mode `m` and format `f` is
      the one at position `10 + 4a + 2m + f` of the method list. */
  lemma GeneratedName(a: nat, m: nat, f: nat)
    requires a < 2 && m < 2 && f < 2
    ensures Actions[a] + Modes[m] + "_" + Formats[f] == BeneMethodNames[10 + 4 * a + 2 * m + f]
  {
    var name := BeneMethodNames[10 + 4 * a + 2 * m + f];
    if a == 0 {
      if m == 0 {
        if f == 0 { assert name == "loads_json"; } else { assert name == "loads_yaml"; }
      } else {
        if f == 0 { assert name == "load_json"; } else { assert name == "load_yaml"; }
      }
    } else {
      if m == 0 {
        if f == 0 { assert name == "dumps_json"; } else { assert name == "dumps_yaml"; }
      } else {
        if f == 0 { assert name == "dump_json"; } else { assert name == "dump_yaml"; }
      }
    }
  }

  /** A name is protected exactly when it is `builtin_` followed by one of
      the eighteen method names; so no plain name such as `keys` is. */
  lemma BeneProtectedIff(n: string)
    ensures n in BeneProtected <==> IsBuiltin(n) && OriginalName(n) in BeneMethodNames
  {
    PrefixedIff(BeneMethodNames, n);
  }

  lemma PrefixedIff(ms: seq<string>, n: string)
    ensures n in Prefixed(ms) <==> IsBuiltin(n) && OriginalName(n) in ms
  {
    var p := Prefixed(ms);
    if n in p {
      var i :| 0 <= i < |p| && p[i] == n;
      BuiltinRoundTrip(ms[i]);
    }
    if IsBuiltin(n) && OriginalName(n) in ms {
      var i :| 0 <= i < |ms| && ms[i] == OriginalName(n);
      OriginalRoundTrip(n);
      assert p[i] == n;
    }
  }

  /** No method name of BeneDict is itself a `builtin_` name. */
  lemma BeneNamesPlain(m: string)
    requires m in BeneMethodNames
    ensures !IsBuiltin(m)
  {
    var i :| 0 <= i < |BeneMethodNames| && BeneMethodNames[i] == m;
    assert m[0] != 'b';
  }

  /** Dict methods BeneDict inherits but does not protect. */
  const DictExtras: seq<string> := ["copy", "fromkeys", "setdefault"]

  // ---- OrderedBeneDict (benedict/ordered.py) ---------------------------

  /** `_builtin_name` */
  function BuiltinName(m: string): (r: string)
    ensures |r| == |Prefix| + |m| && r[|Prefix|..] == m
  {
    Prefix + m
  }

  /** `_original_name`: drops the first eight characters, whatever they are. */
  function OriginalName(b: string): (r: string)
    ensures |r| == if |b| >= |Prefix| then |b| - |Prefix| else 0
    ensures |b| >= |Prefix| ==> b == b[..|Prefix|] + r
  {
    if |b| >= |Prefix| then b[|Prefix|..] else ""
  }

  /** `_is_builtin` */
  predicate IsBuiltin(m: string) {
    StartsWith(m, Prefix)
  }

  /** Prefixing a name marks it builtin, and dropping the prefix gives the
      name back. */
  lemma BuiltinRoundTrip(m: string)
    ensures IsBuiltin(BuiltinName(m)) && OriginalName(BuiltinName(m)) == m
  {
    assert BuiltinName(m)[..|Prefix|] == Prefix;
  }

  /** A builtin name is the builtin name of its original name. */
  lemma OriginalRoundTrip(b: string)
    requires IsBuiltin(b)
    ensures BuiltinName(OriginalName(b)) == b
  {
  }

  /** The names whose `builtin_` aliases the ordered class lists: the public
      OrderedDict methods, then the class's own. */
  const OrderedMethodNames: seq<string> :=
    ["clear", "copy", "fromkeys", "get", "items", "keys", "move_to_end", "pop",
     "popitem", "setdefault", "update", "values", "deepcopy", "dump_file",
     "dump_json_file", "dump_json_str", "dump_yaml_file", "dump_yaml_str",
     "load_file", "load_json_file", "load_json_str", "load_yaml_file",
     "load_yaml_str", "to_dict"]

  /** The fixed alias table of the ordered class: one `builtin_` alias per
      listed method, in the order the class body assigns them. */
  const OrderedProtected: seq<string> := Prefixed(OrderedMethodNames)

  /** No listed method name of the ordered class is itself a `builtin_`
      name. */
  lemma OrderedNamesPlain(m: string)
    requires m in OrderedMethodNames
    ensures !IsBuiltin(m)
  {
    var i :| 0 <= i < |OrderedMethodNames| && OrderedMethodNames[i] == m;
    assert m[0] != 'b';
  }

  /** A name is protected on the ordered class exactly when it is the
      builtin name of one of the 24 listed methods. */
  lemma OrderedProtectedIff(n: string)
    ensures n in OrderedProtected <==> IsBuiltin(n) && OriginalName(n) in OrderedMethodNames
  {
    PrefixedIff(OrderedMethodNames, n);
  }
}
