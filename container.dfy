/** The attribute-addressable containers: a `BeneDict` (or `Config`) of
    `benedict/__init__.py` and an `OrderedBeneDict` of `benedict/ordered.py`.
    An instance holds its item store (the dict itself, insertion ordered)
    and its attribute store (the instance `__dict__`). The setter writes a
    string key to both, and attribute lookup falls back to the class's
    methods. Nested containers are values: the setter builds them fresh,
    so no two containers share one. */
module Containers {
  import opened Values
  import opened Names
  import opened Normalize
  import opened Placeholders
  import opened DefaultFill

  // ---- Class attributes ----------------------------------------------------

  /** The non-dunder class attributes an instance of `kind` resolves when no
      instance attribute has the name: the dict or OrderedDict methods, the
      class's own methods and their `builtin_` aliases, and on a Config its
      `extend`. */
  function ClassMethods(kind: Kind): seq<string> {
    match kind
    case Ordered => OrderedMethodNames + OrderedProtected
    case Config => BeneMethodNames + BeneProtected + DictExtras + ["extend"]
    case _ => BeneMethodNames + BeneProtected + DictExtras
  }

  function ClassName(kind: Kind): string {
    match kind
    case Plain => "dict"
    case Bene => "BeneDict"
    case Config => "Config"
    case Ordered => "OrderedBeneDict"
  }

  /** Looking up an attribute that neither the instance nor its class has:
      Config's `__getattr__` turns the AttributeError into a ConfigError. */
  function MissingAttr(kind: Kind, name: string): (r: Error)
    ensures r.ConfigError? <==> kind == Config
    ensures r.ConfigError? || r.AttributeError?
  {
    if kind == Config then ConfigError("config key \"" + name + "\" missing.")
    else AttributeError("'" + ClassName(kind) + "' object has no attribute '" + name + "'")
  }

  // ---- BeneDict.__init__ -----------------------------------------------------

  /** `dict.items(d)` (or `dict.update(d, ...)` when keywords are given) on
      something that is not a dict. */
  function NotADict(x: Value, kwargs: seq<Entry>): Error {
    TypeError("descriptor '" + (if kwargs == [] then "items" else "update")
              + "' for 'dict' objects doesn't apply to a '" + TypeName(x) + "' object")
  }

  /** The item store `BeneDict.__init__(d, **kwargs)` leaves on a new
      instance of `kind`: `None` (the default for `d`) counts as `{}`, the
      keywords are merged into `d`, every merged entry goes through the
      setter in order, then the class attributes are re-set. */
  function BeneInit(kind: Kind, d: Value, kwargs: seq<Entry>): Result<seq<Entry>>
    requires BeneFamily(kind)
  {
    if d.Null? then Construct(kind, Dict(Plain, Update([], kwargs)))
    else if !d.Dict? then Err(NotADict(d, kwargs))
    else Construct(kind, Dict(Plain, Update(d.entries, kwargs)))
  }

  /** The entries `BeneDict.__init__(d, **kwargs)` merges: those of `d`
      (none for `None`), then the keywords. */
  function InitSource(d: Value): seq<Entry> {
    if d.Dict? then d.entries else []
  }

  /** What `BeneDict(d, **kwargs)` holds: the keys of `d` in order, then the
      keyword keys `d` lacks, then on a Config `extend` unless already
      there; a keyword key holds its keyword's value, any other key its
      value in `d`, each as the setter stores it. Only `None` or a dict is
      accepted. */
  lemma BeneInitContents(kind: Kind, d: Value, kwargs: seq<Entry>)
    requires BeneFamily(kind) && DistinctKeys(InitSource(d)) && DistinctKeys(kwargs)
    requires BeneInit(kind, d, kwargs).Ok?
    ensures d.Null? || d.Dict?
    ensures var src := InitSource(d);
            var ks := KeysOf(src) + NewKeys(KeysOf(src), KeysOf(kwargs));
            KeysOf(BeneInit(kind, d, kwargs).value) == ks + (if kind == Config && ExtendKey !in ks then [ExtendKey] else [])
    ensures var src := InitSource(d);
            forall k :: k in KeysOf(src) || k in KeysOf(kwargs) ==>
              var v := if k in KeysOf(kwargs) then Get(kwargs, k).value else Get(src, k).value;
              Normalize.Normalize(kind, v).Ok?
              && Get(BeneInit(kind, d, kwargs).value, k) == Some(Normalize.Normalize(kind, v).value)
  {
    var src := InitSource(d);
    var m := Update(src, kwargs);
    UpdateKeys(src, kwargs);
    ConstructContents(kind, Dict(Plain, m));
    forall k | k in KeysOf(src) || k in KeysOf(kwargs)
      ensures var v := if k in KeysOf(kwargs) then Get(kwargs, k).value else Get(src, k).value;
              Normalize.Normalize(kind, v).Ok?
              && Get(BeneInit(kind, d, kwargs).value, k) == Some(Normalize.Normalize(kind, v).value)
    {
      UpdateGet(src, kwargs, k);
      var j := Find(m, k).value;
      assert m[j].key == k;
    }
  }

  // ---- OrderedBeneDict.__init__ --------------------------------------------

  const TooManyArgs: Error := ValueError("cannot have more than 1 positional arg")
  const NotMappingOrSequence: Error :=
    AssertionError("positional argument should either be a Mapping or a Sequence of (key, value) tuples")

  /** The value Python iterates out of a dict key. */
  function KeyValue(k: Key): Value {
    match k
    case StrKey(s) => Str(s)
    case IntKey(i) => Int(i)
    case FloatKey(r) => Float(r)
    case NullKey => Null
    case TupleKey(ks) => Tuple(seq(|ks|, i requires 0 <= i < |ks| => KeyValue(ks[i])))
  }

  /** The error hashing an unhashable value raises. */
  function Unhashable(v: Value): Error {
    TypeError("unhashable type: '" + TypeName(v) + "'")
  }

  /** The key a value hashes to. `True` is `1` and an integral float is its
      integer, as Python's dict sees them; a tuple hashes its elements in
      order and raises for the first unhashable one; a list or a dict is
      unhashable, and so is a method in this model. */
  function HashKey(v: Value): (r: Result<Key>)
    ensures r.Err? ==> r.error.TypeError?
    decreases v, 1
  {
    match v
    case Null => Ok(NullKey)
    case Bool(b) => Ok(IntKey(if b then 1 else 0))
    case Int(i) => Ok(IntKey(i))
    case Float(r) => Ok(if r == r.Floor as real then IntKey(r.Floor) else FloatKey(r))
    case Str(s) => Ok(StrKey(s))
    case Tuple(_) =>
      var ks :- HashKeys(v, 0);
      Ok(TupleKey(ks))
    case _ => Err(Unhashable(v))
  }

  /** The keys of the elements of a tuple from `i` on. */
  function HashKeys(v: Value, i: nat): (r: Result<seq<Key>>)
    requires v.Tuple? && i <= |v.elems|
    ensures r.Ok? ==> |r.value| == |v.elems| - i
    ensures r.Err? ==> r.error.TypeError?
    decreases v, 0, |v.elems| - i
  {
    if i == |v.elems| then Ok([])
    else
      var k :- HashKey(v.elems[i]);
      var rest :- HashKeys(v, i + 1);
      Ok([k] + rest)
  }

  /** Every key is hashed back from the value it iterates as. */
  lemma {:induction false} HashKeyValue(k: Key)
    ensures HashKey(KeyValue(k)) == Ok(k)
    decreases k, 1
  {
    if k.TupleKey? {
      HashKeysValue(k, 0);
      assert k.elems[0..] == k.elems;
    }
  }

  lemma {:induction false} HashKeysValue(k: Key, i: nat)
    requires k.TupleKey? && i <= |k.elems|
    ensures HashKeys(KeyValue(k), i) == Ok(k.elems[i..])
    decreases k, 0, |k.elems| - i
  {
    if i == |k.elems| {
      assert k.elems[i..] == [];
    } else {
      assert KeyValue(k).elems[i] == KeyValue(k.elems[i]);
      HashKeyValue(k.elems[i]);
      HashKeysValue(k, i + 1);
      SliceCons(k.elems, i);
    }
  }

  /** The one-character strings iterating over a string gives. */
  function Chars(s: string): (r: seq<Value>)
    ensures |r| == |s| && forall i :: 0 <= i < |s| ==> r[i] == Str([s[i]])
  {
    if s == [] then [] else [Str([s[0]])] + Chars(s[1..])
  }

  /** What `for k, v in items` makes of one item: its two elements, or the
      error of unpacking it. */
  function Unpack(x: Value): (r: Result<(Value, Value)>)
    ensures r.Ok? && (x.List? || x.Tuple?) ==> |x.elems| == 2 && r.value == (x.elems[0], x.elems[1])
  {
    var parts: Option<seq<Value>> :=
      match x
      case List(xs) => Some(xs)
      case Tuple(xs) => Some(xs)
      case Str(s) => Some(Chars(s))
      case Dict(_, es) => Some(seq(|es|, i requires 0 <= i < |es| => KeyValue(es[i].key)))
      case _ => None;
    match parts
    case None => Err(TypeError("cannot unpack non-iterable " + TypeName(x) + " object"))
    case Some(ps) =>
      if |ps| == 0 then Err(ValueError("not enough values to unpack (expected 2, got 0)"))
      else if |ps| == 1 then Err(ValueError("not enough values to unpack (expected 2, got 1)"))
      else if |ps| > 2 then Err(ValueError("too many values to unpack (expected 2)"))
      else Ok((ps[0], ps[1]))
  }

  /** `self.__setattr__(k, v)` on an ordered instance for a name given as a
      value: an unhashable name raises only once the value is normalised,
      where the item store hashes it. */
  function SetPair(es: seq<Entry>, k: Value, v: Value): Result<seq<Entry>> {
    match HashKey(k)
    case Ok(key) => SetEntry(Ordered, es, key, v)
    case Err(e) =>
      var _ :- Normalize.Normalize(Ordered, v);
      Err(e)
  }

  /** The pairs of a sequence argument from `i` on, set into `acc`. */
  function SetPairs(xs: seq<Value>, acc: seq<Entry>, i: nat): Result<seq<Entry>>
    requires i <= |xs|
    decreases |xs| - i
  {
    if i == |xs| then Ok(acc)
    else
      var kv :- Unpack(xs[i]);
      var acc' :- SetPair(acc, kv.0, kv.1);
      SetPairs(xs, acc', i + 1)
  }

  /** The entries the positional argument contributes: a mapping (an
      ordered or BeneDict instance through `builtin_items`) gives its items,
      a sequence its unpacked pairs, anything else fails the assertion. */
  function ArgEntries(a: Value): Result<seq<Entry>> {
    if a.Dict? then SetAll(Ordered, a, [], 0)
    else if a.List? || a.Tuple? then SetPairs(a.elems, [], 0)
    else if a.Str? then SetPairs(Chars(a.s), [], 0)
    else Err(NotMappingOrSequence)
  }

  /** The item store `OrderedBeneDict.__init__(*args, **kwargs)` leaves: at
      most one positional argument, whose entries are set first, then the
      keywords, each through the setter. */
  function OrderedInit(args: seq<Value>, kwargs: seq<Entry>): Result<seq<Entry>> {
    if |args| > 1 then Err(TooManyArgs)
    else
      var es :- if |args| == 0 then Ok([]) else ArgEntries(args[0]);
      SetAll(Ordered, Dict(Plain, kwargs), es, 0)
  }

  /** What `OrderedBeneDict(m, **kwargs)` holds for a mapping `m`: the keys
      of `m` in order, then the keyword keys `m` lacks; a keyword key holds
      its keyword's value, any other key its value in `m`, each as the
      setter stores it. */
  lemma OrderedInitContents(m: Value, kwargs: seq<Entry>)
    requires m.Dict? && DistinctKeys(m.entries) && DistinctKeys(kwargs)
    requires OrderedInit([m], kwargs).Ok?
    ensures var ks := KeysOf(m.entries) + NewKeys(KeysOf(m.entries), KeysOf(kwargs));
            KeysOf(OrderedInit([m], kwargs).value) == ks
    ensures forall k :: k in KeysOf(m.entries) || k in KeysOf(kwargs) ==>
              var v := if k in KeysOf(kwargs) then Get(kwargs, k).value else Get(m.entries, k).value;
              Normalize.Normalize(Ordered, v).Ok?
              && Get(OrderedInit([m], kwargs).value, k) == Some(Normalize.Normalize(Ordered, v).value)
  {
    var kw := Dict(Plain, kwargs);
    var es := SetAll(Ordered, m, [], 0).value;
    assert KeysOf([]) == KeysOf(m.entries)[..0];
    SetAllContents(Ordered, m, [], 0);
    SetAllOnto(Ordered, kw, es, 0);
    assert KeysOf(kwargs)[0..] == KeysOf(kwargs);
    forall k | k in KeysOf(m.entries) || k in KeysOf(kwargs)
      ensures var v := if k in KeysOf(kwargs) then Get(kwargs, k).value else Get(m.entries, k).value;
              Normalize.Normalize(Ordered, v).Ok?
              && Get(OrderedInit([m], kwargs).value, k) == Some(Normalize.Normalize(Ordered, v).value)
    {
      if k in KeysOf(kwargs) {
        var j := Find(kwargs, k).value;
        assert kw.entries[j].key == k;
      } else {
        var j := Find(m.entries, k).value;
        assert m.entries[j].key == k;
      }
    }
  }

  /** The pair `x` of a sequence argument is stored as the entry `e`: it
      unpacks, its key hashes to `e.key` and its value is stored as
      `e.val`. */
  predicate PairStored(x: Value, e: Entry) {
    Unpack(x).Ok? && HashKey(Unpack(x).value.0) == Ok(e.key)
    && Normalize.Normalize(Ordered, Unpack(x).value.1) == Ok(e.val)
  }

  /** A successful pair loop from `i` on is `dict.update` with the stored
      pairs, one entry per pair, in order. */
  lemma {:induction false} SetPairsUpdate(xs: seq<Value>, acc: seq<Entry>, i: nat) returns (es: seq<Entry>)
    requires i <= |xs| && SetPairs(xs, acc, i).Ok?
    ensures AllStored(xs, i, es)
    ensures SetPairs(xs, acc, i).value == Update(acc, es)
    decreases |xs| - i
  {
    if i == |xs| {
      es := [];
    } else {
      var e, acc' := SetPairsStep(xs, acc, i);
      var rest := SetPairsUpdate(xs, acc', i + 1);
      es := [e] + rest;
      UpdateCons(acc, e, rest);
      assert Update(acc, es) == Update(acc', rest);
      StoredShift(xs, i, e, rest);
    }
  }

  /** The entries `es` are those of the pairs from `i` on, one per pair. */
  predicate AllStored(xs: seq<Value>, i: nat, es: seq<Entry>) {
    i <= |xs| && |es| == |xs| - i && forall j :: 0 <= j < |es| ==> PairStored(xs[i + j], es[j])
  }

  /** Prefixing the entry of pair `i` to those of the pairs after it. */
  lemma StoredShift(xs: seq<Value>, i: nat, e: Entry, rest: seq<Entry>)
    requires i < |xs| && PairStored(xs[i], e) && AllStored(xs, i + 1, rest)
    ensures AllStored(xs, i, [e] + rest)
  {
    forall j | 0 < j < |[e] + rest| ensures PairStored(xs[i + j], ([e] + rest)[j]) {
      var j' := j - 1;
      assert PairStored(xs[i + 1 + j'], rest[j']);
      assert ([e] + rest)[j] == rest[j'] && i + j == i + 1 + j';
    }
  }

  /** One successful pair of the loop is one `Put` of its stored entry. */
  lemma SetPairsStep(xs: seq<Value>, acc: seq<Entry>, i: nat) returns (e: Entry, acc': seq<Entry>)
    requires i < |xs| && SetPairs(xs, acc, i).Ok?
    ensures PairStored(xs[i], e) && acc' == Put(acc, e.key, e.val)
    ensures SetPairs(xs, acc', i + 1) == SetPairs(xs, acc, i)
  {
    SetPairsCases(xs, acc, i);
    var kv := Unpack(xs[i]).value;
    var key := HashKey(kv.0).value;
    SetEntryPut(Ordered, acc, key, kv.1);
    e := Entry(key, Normalize.Normalize(Ordered, kv.1).value);
    acc' := SetEntry(Ordered, acc, key, kv.1).value;
  }

  /** What the pair loop leaves: the keys already there, then each new key
      once, where its first pair stands; a key of the pairs holds the value
      of its last pair, the later pair overwriting the earlier. */
  lemma SetPairsContents(xs: seq<Value>, acc: seq<Entry>) returns (es: seq<Entry>)
    requires SetPairs(xs, acc, 0).Ok?
    ensures |es| == |xs| && forall j :: 0 <= j < |xs| ==> PairStored(xs[j], es[j])
    ensures KeysOf(SetPairs(xs, acc, 0).value) == KeysOf(acc) + FirstNew(KeysOf(acc), KeysOf(es))
    ensures forall k :: Get(SetPairs(xs, acc, 0).value, k)
                        == if k in KeysOf(es) then Some(es[LastAt(es, k)].val) else Get(acc, k)
  {
    es := SetPairsUpdate(xs, acc, 0);
    UpdateKeysAll(acc, es);
    forall k ensures Get(SetPairs(xs, acc, 0).value, k)
                     == if k in KeysOf(es) then Some(es[LastAt(es, k)].val) else Get(acc, k) {
      UpdateGetAll(acc, es, k);
    }
  }

  /** The pairs a sequence argument iterates. */
  function PairSource(a: Value): seq<Value>
    requires a.List? || a.Tuple? || a.Str?
  {
    if a.Str? then Chars(a.s) else a.elems
  }

  /** What `OrderedBeneDict(a, **kwargs)` holds for a sequence `a` of
      pairs: the keys of the pairs, each once in first-occurrence order, then
      the keyword keys the pairs lack; a keyword key holds its keyword's
      value and any other key the value of its last pair, each as the
      setter stores it. */
  lemma OrderedInitPairs(a: Value, kwargs: seq<Entry>) returns (es: seq<Entry>)
    requires (a.List? || a.Tuple? || a.Str?) && DistinctKeys(kwargs)
    requires OrderedInit([a], kwargs).Ok?
    ensures |es| == |PairSource(a)| && forall j :: 0 <= j < |es| ==> PairStored(PairSource(a)[j], es[j])
    ensures var ks := FirstNew([], KeysOf(es));
            KeysOf(OrderedInit([a], kwargs).value) == ks + NewKeys(ks, KeysOf(kwargs))
    ensures forall k :: k in KeysOf(es) && k !in KeysOf(kwargs) ==>
              Get(OrderedInit([a], kwargs).value, k) == Some(es[LastAt(es, k)].val)
    ensures forall k :: k in KeysOf(kwargs) ==>
              Normalize.Normalize(Ordered, Get(kwargs, k).value).Ok?
              && Get(OrderedInit([a], kwargs).value, k) == Some(Normalize.Normalize(Ordered, Get(kwargs, k).value).value)
  {
    var kw := Dict(Plain, kwargs);
    var xs := PairSource(a);
    assert ArgEntries(a) == SetPairs(xs, [], 0);
    var base := SetPairs(xs, [], 0).value;
    es := SetPairsContents(xs, []);
    assert KeysOf([]) + FirstNew(KeysOf([]), KeysOf(es)) == FirstNew([], KeysOf(es));
    SetAllOnto(Ordered, kw, base, 0);
    assert KeysOf(kwargs)[0..] == KeysOf(kwargs);
    forall k | k in KeysOf(kwargs)
      ensures Normalize.Normalize(Ordered, Get(kwargs, k).value).Ok?
              && Get(OrderedInit([a], kwargs).value, k) == Some(Normalize.Normalize(Ordered, Get(kwargs, k).value).value)
    {
      var j := Find(kwargs, k).value;
      assert kw.entries[j].key == k;
    }
  }

  // ---- deepcopy -------------------------------------------------------------

  /** `BeneDict(self)`, the copy `deepcopy` makes of an instance of a
      BeneDict class; a Config inherits it, so its copy is a BeneDict. The
      copy of a BeneDict holds the same items; the copy of a Config holds
      the same keys, in the same order, and never fails. */
  lemma BeneCopy(kind: Kind, items: seq<Entry>)
    requires BeneFamily(kind) && NormalEntries(kind, items)
    ensures BeneInit(Bene, Dict(kind, items), []).Ok?
    ensures KeysOf(BeneInit(Bene, Dict(kind, items), []).value) == KeysOf(items)
    ensures kind == Bene ==> BeneInit(Bene, Dict(kind, items), []) == Ok(items)
  {
    var d := Dict(Plain, items);
    assert Update(items, []) == items;
    RewrapEntries(kind, Bene, d);
    ConstructContents(Bene, d);
    if kind == Bene {
      CopyIdentity(Bene, items);
      ConstructEntriesOnly(Bene, d, Dict(Bene, items));
    }
  }

  /** `self.__class__(self)`, the copy `deepcopy` makes of an ordered
      instance: the positional mapping is set entry by entry, which gives
      the same items back. */
  lemma OrderedCopy(items: seq<Entry>)
    requires NormalEntries(Ordered, items)
    ensures OrderedInit([Dict(Ordered, items)], []) == Ok(items)
  {
    CopyIdentity(Ordered, items);
    assert SetAll(Ordered, Dict(Plain, []), items, 0) == Ok(items);
  }

  // ---- extend_config ------------------------------------------------------

  /** `extend_config(config, default_config)`: both arguments must be
      dicts; the config is filled by the walk, then wrapped as a Config. */
  function ExtendConfig(config: Value, d: Value): Result<seq<Entry>> {
    if !config.Dict? || !d.Dict? then Err(AssertionError(""))
    else
      var filled :- Fill(config, d, []);
      BeneInit(Config, filled, [])
  }

  /** A non-dict argument fails the assertion, and a failing walk raises
      its own error before any Config is built: the error of `d.items()`
      on defaults whose `items` is hidden, or else that of the first
      failing step. */
  lemma ExtendConfigFails(config: Value, d: Value)
    ensures !config.Dict? || !d.Dict? ==> ExtendConfig(config, d) == Err(AssertionError(""))
    ensures config.Dict? && ItemsShadowed(d) ==> ExtendConfig(config, d) == Err(ItemsError(d))
    ensures config.Dict? && d.Dict? && DistinctKeys(d.entries) && !ItemsShadowed(d) && Fill(config, d, []).Err? ==>
              exists j :: 0 <= j < |d.entries|
                && FillKey(config, d.entries[j].key, d.entries[j].val, []).Err?
                && ExtendConfig(config, d) == Err(FillKey(config, d.entries[j].key, d.entries[j].val, []).error)
  {
    if config.Dict? && d.Dict? && DistinctKeys(d.entries) && Fill(config, d, []).Err? {
      var j := FillFirstError(config, d, []);
    }
  }

  /** On success the result is a well-formed Config whose keys are the
      config's, then the default keys it lacked, then `extend` unless one
      of them is `extend`; a key the defaults do not mention holds the
      config's value as a Config stores it. */
  lemma ExtendConfigResult(config: Value, d: Value)
    requires config.Dict? && d.Dict? && DistinctKeys(config.entries) && DistinctKeys(d.entries)
    requires ExtendConfig(config, d).Ok?
    ensures NormalDict(Config, Dict(Config, ExtendConfig(config, d).value))
    ensures var ks := KeysOf(config.entries) + NewKeys(KeysOf(config.entries), KeysOf(d.entries));
            KeysOf(ExtendConfig(config, d).value) == ks + (if ExtendKey in ks then [] else [ExtendKey])
    ensures forall k :: k in KeysOf(config.entries) && k !in KeysOf(d.entries) ==>
              Normalize.Normalize(Config, Get(config.entries, k).value).Ok?
              && Get(ExtendConfig(config, d).value, k) == Some(Normalize.Normalize(Config, Get(config.entries, k).value).value)
  {
    var filled := Fill(config, d, []).value;
    var p := Dict(Plain, filled.entries);
    assert Update(filled.entries, []) == filled.entries;
    FillKeys(config, d, []);
    NewKeysDistinct(KeysOf(config.entries), KeysOf(d.entries), 0);
    assert KeysOf(d.entries)[0..] == KeysOf(d.entries);
    ConstructSound(Config, p);
    ConstructContents(Config, p);
    forall k | k in KeysOf(config.entries) && k !in KeysOf(d.entries)
      ensures Normalize.Normalize(Config, Get(config.entries, k).value).Ok?
      ensures Get(ExtendConfig(config, d).value, k) == Some(Normalize.Normalize(Config, Get(config.entries, k).value).value)
    {
      FillKeepsOthers(config, d, [], k);
      var j := Find(filled.entries, k).value;
      assert p.entries[j].key == k;
    }
  }

  // ---- The two stores --------------------------------------------------------

  /** An attribute for exactly the string keys of the item store, holding
      the same value as the item. */
  ghost predicate Mirror(items: seq<Entry>, attrs: map<string, Value>) {
    (forall n :: n in attrs ==> Get(items, StrKey(n)) == Some(attrs[n]))
    && (forall i :: 0 <= i < |items| && items[i].key.StrKey? ==> items[i].key.s in attrs)
  }

  /** Through the mirror, a name is an attribute exactly when its string
      key is an item, and the two hold the same value. */
  lemma MirrorLookup(items: seq<Entry>, attrs: map<string, Value>, name: string)
    requires Mirror(items, attrs)
    ensures name in attrs <==> StrKey(name) in KeysOf(items)
    ensures name in attrs ==> Get(items, StrKey(name)) == Some(attrs[name])
  {
    var f := Find(items, StrKey(name));
    if f.Some? {
      assert items[f.value].key.StrKey?;
    }
  }

  /** The attribute store after storing `v` under `k`: only a string key
      is an attribute name. */
  function AttrsPut(attrs: map<string, Value>, k: Key, v: Value): map<string, Value> {
    if k.StrKey? then attrs[k.s := v] else attrs
  }

  /** The stores of an instance of `kind`: items as the setter of its class
      leaves them, and an attribute for exactly the string keys, holding the
      same value as the item. */
  ghost predicate Stores(kind: Kind, items: seq<Entry>, attrs: map<string, Value>) {
    Wrapping(kind) && NormalEntries(kind, items) && Mirror(items, attrs)
  }

  /** Storing a value under a key in both stores keeps them mirrored. */
  lemma MirrorPut(items: seq<Entry>, attrs: map<string, Value>, k: Key, v: Value)
    requires Mirror(items, attrs)
    ensures Mirror(Put(items, k, v), AttrsPut(attrs, k, v))
  {
    var items', attrs' := Put(items, k, v), AttrsPut(attrs, k, v);
    forall n | n in attrs' ensures Get(items', StrKey(n)) == Some(attrs'[n]) {
      if StrKey(n) != k {
        assert n in attrs;
      }
    }
    forall i | 0 <= i < |items'| && items'[i].key.StrKey? ensures items'[i].key.s in attrs' {
      var key := KeysOf(items')[i];
      if key != k {
        assert key in KeysOf(items);
        var j :| 0 <= j < |items| && KeysOf(items)[j] == key;
        assert items[j].key.s in attrs;
      }
    }
  }

  /** A successful store keeps the item store normal and the two stores
      mirrored. */
  lemma SetKeepsValid(kind: Kind, items: seq<Entry>, attrs: map<string, Value>, k: Key, v: Value)
    requires Stores(kind, items, attrs)
    requires !IsProtected(kind, k) && Normalize.Normalize(kind, v).Ok? && (BeneFamily(kind) ==> k.StrKey?)
    ensures var nv := Normalize.Normalize(kind, v).value;
            SetEntry(kind, items, k, v) == Ok(Put(items, k, nv))
            && Stores(kind, Put(items, k, nv), AttrsPut(attrs, k, nv))
  {
    SetEntrySound(kind, items, k, v);
    MirrorPut(items, attrs, k, Normalize.Normalize(kind, v).value);
  }

  /** One step of `SetAll`, spelled out on the setter. */
  lemma SetAllCases(kind: Kind, d: Value, acc: seq<Entry>, i: nat)
    requires Wrapping(kind) && d.Dict? && i < |d.entries|
    ensures var e := d.entries[i];
            var s := SetEntry(kind, acc, e.key, e.val);
            (BeneFamily(kind) && !e.key.StrKey? ==> SetAll(kind, d, acc, i) == Err(NameNotString))
            && (!(BeneFamily(kind) && !e.key.StrKey?) && s.Err? ==> SetAll(kind, d, acc, i) == Err(s.error))
            && (!(BeneFamily(kind) && !e.key.StrKey?) && s.Ok? ==> SetAll(kind, d, acc, i) == SetAll(kind, d, s.value, i + 1))
  {
  }

  /** One step of `SetPairs`, spelled out on the setter. */
  lemma SetPairsCases(xs: seq<Value>, acc: seq<Entry>, i: nat)
    requires i < |xs|
    ensures var kv := Unpack(xs[i]);
            (kv.Err? ==> SetPairs(xs, acc, i) == Err(kv.error))
            && (kv.Ok? && HashKey(kv.value.0).Err? && Normalize.Normalize(Ordered, kv.value.1).Err? ==>
                  SetPairs(xs, acc, i) == Err(Normalize.Normalize(Ordered, kv.value.1).error))
            && (kv.Ok? && HashKey(kv.value.0).Err? && Normalize.Normalize(Ordered, kv.value.1).Ok? ==>
                  SetPairs(xs, acc, i) == Err(HashKey(kv.value.0).error))
            && (kv.Ok? && HashKey(kv.value.0).Ok? ==>
                  var s := SetEntry(Ordered, acc, HashKey(kv.value.0).value, kv.value.1);
                  (s.Err? ==> SetPairs(xs, acc, i) == Err(s.error))
                  && (s.Ok? ==> SetPairs(xs, acc, i) == SetPairs(xs, s.value, i + 1)))
  {
  }

  /** At the end of the entries `SetAll` returns what it has set. */
  lemma SetAllDone(kind: Kind, d: Value, acc: seq<Entry>)
    requires Wrapping(kind) && d.Dict?
    ensures SetAll(kind, d, acc, |d.entries|) == Ok(acc)
  {
  }

  /** The Config template is the setter storing `extend` again: the value
      already held, or the class's method. */
  lemma TemplateBySet(items: seq<Entry>)
    requires NormalEntries(Config, items)
    ensures ExtendKey in KeysOf(items) ==>
              SetEntry(Config, items, ExtendKey, Get(items, ExtendKey).value) == Ok(Template(Config, items))
    ensures ExtendKey !in KeysOf(items) ==>
              SetEntry(Config, items, ExtendKey, ExtendMethod) == Ok(Template(Config, items))
  {
    BeneProtectedIff("extend");
    if ExtendKey in KeysOf(items) {
      ReSetIdentity(Config, items, ExtendKey);
    }
  }

  /** The loop body of the walk, spelled out on the container's setter. */
  lemma FillKeyCases(cur: Value, key: Key, dv: Value, trace: seq<Key>)
    requires cur.Dict? && Wrapping(cur.kind)
    ensures var dec := Decide(Get(cur.entries, key), key, dv, trace);
            var s := FillKey(cur, key, dv, trace);
            (dec.Err? ==> s == Err(dec.error))
            && (dec.Ok? && dec.value.None? ==> s == Ok(cur))
            && (dec.Ok? && dec.value.Some? && SetEntry(cur.kind, cur.entries, key, dec.value.value).Err? ==>
                  s == Err(SetEntry(cur.kind, cur.entries, key, dec.value.value).error))
            && (dec.Ok? && dec.value.Some? && SetEntry(cur.kind, cur.entries, key, dec.value.value).Ok? ==>
                  s == Ok(Dict(cur.kind, SetEntry(cur.kind, cur.entries, key, dec.value.value).value)))
  {
  }

  // ---- The container ---------------------------------------------------------

  class Container {
    const kind: Kind
    /** The item store, in insertion order. */
    var items: seq<Entry>
    /** The instance attributes. */
    var attrs: map<string, Value>

    ghost predicate Valid()
      reads this
    {
      Stores(kind, items, attrs)
    }

    /** The instance as a dict value. */
    function Snapshot(): Value
      reads this
    {
      Dict(kind, items)
    }

    /** `cls.__new__(cls)`: an empty instance. */
    constructor (kind: Kind)
      requires Wrapping(kind)
      ensures this.kind == kind && items == [] && attrs == map[]
      ensures Valid()
    {
      this.kind := kind;
      items := [];
      attrs := map[];
    }

    /** `self.name = value` and `self[name] = value` (the two are the same
        method): a protected name raises ValueError, the value is
        normalised, a string name is written to the attribute store, a
        BeneDict refuses any other name, and the item store gets the
        normalised value. Nothing changes when it raises. */
    method Set(k: Key, v: Value) returns (r: Result<Value>)
      requires Valid()
      modifies this
      ensures Valid()
      ensures r.Err? <==> SetEntry(kind, old(items), k, v).Err?
      ensures r.Err? ==> r.error == SetEntry(kind, old(items), k, v).error && items == old(items) && attrs == old(attrs)
      ensures r.Ok? ==> r.value == Normalize.Normalize(kind, v).value && items == SetEntry(kind, old(items), k, v).value
      ensures r.Ok? ==> attrs == AttrsPut(old(attrs), k, r.value)
    {
      if IsProtected(kind, k) {
        return Err(ProtectedError(kind, k.s));
      }
      var nv := Normalize.Normalize(kind, v);
      if nv.Err? {
        return Err(nv.error);
      }
      if !k.StrKey? && BeneFamily(kind) {
        return Err(NameNotString);
      }
      SetKeepsValid(kind, items, attrs, k, v);
      items, attrs := Put(items, k, nv.value), AttrsPut(attrs, k, nv.value);
      r := Ok(nv.value);
    }

    /** `deepcopy()`: a new instance built by the copying constructor (see
        `BeneCopy` and `OrderedCopy`). */
    method DeepCopy() returns (c: Container)
      requires Valid()
      ensures fresh(c) && c.Valid()
      ensures c.kind == if kind == Ordered then Ordered else Bene
      ensures kind != Config ==> c.items == items
      ensures kind == Config ==> BeneInit(Bene, Snapshot(), []) == Ok(c.items) && KeysOf(c.items) == KeysOf(items)
    {
      if kind == Ordered {
        OrderedCopy(items);
        c := new Container(Ordered);
        var r := c.InitOrdered([Snapshot()], []);
      } else {
        BeneCopy(kind, items);
        c := new Container(Bene);
        var r := c.InitBene(Snapshot(), []);
      }
    }

    /** `self.name`: the instance attribute, which is the item under the
        string key; otherwise the class attribute; otherwise the class's
        missing-attribute error. */
    method GetAttr(name: string) returns (r: Result<Value>)
      requires Valid()
      ensures StrKey(name) in KeysOf(items) ==> r == Ok(Get(items, StrKey(name)).value)
      ensures StrKey(name) !in KeysOf(items) && name in ClassMethods(kind) ==> r == Ok(Method(name))
      ensures StrKey(name) !in KeysOf(items) && name !in ClassMethods(kind) ==> r == Err(MissingAttr(kind, name))
    {
      MirrorLookup(items, attrs, name);
      if name in attrs {
        return Ok(attrs[name]);
      }
      if name in ClassMethods(kind) {
        return Ok(Method(name));
      }
      return Err(MissingAttr(kind, name));
    }

    /** `self[k]`, the lookup of the dict itself. */
    method GetItem(k: Key) returns (r: Result<Value>)
      ensures r.Ok? <==> k in KeysOf(items)
      ensures r.Ok? ==> Get(items, k) == Some(r.value)
      ensures r.Err? ==> r.error == KeyError(k)
    {
      match Get(items, k)
      case None => r := Err(KeyError(k));
      case Some(v) => r := Ok(v);
    }

    /** `for k, v in d.items(): setattr(self, k, v)`: every entry of `d`
        goes through the setter in order, and the first refusal is raised.
        A BeneDict is set through builtin `setattr`, which refuses a
        non-string name before the setter runs. */
    method SetEach(d: Value) returns (r: Result<()>)
      requires d.Dict? && Valid()
      modifies this
      ensures Valid()
      ensures r.Ok? <==> SetAll(kind, d, old(items), 0).Ok?
      ensures r.Err? ==> r.error == SetAll(kind, d, old(items), 0).error
      ensures r.Ok? ==> items == SetAll(kind, d, old(items), 0).value
    {
      var i := 0;
      while i < |d.entries|
        invariant 0 <= i <= |d.entries| && Valid()
        invariant SetAll(kind, d, old(items), 0) == SetAll(kind, d, items, i)
      {
        SetAllCases(kind, d, items, i);
        var e := d.entries[i];
        if BeneFamily(kind) && !e.key.StrKey? {
          return Err(NameNotString);
        }
        var s := Set(e.key, e.val);
        if s.Err? {
          return Err(s.error);
        }
        i := i + 1;
      }
      SetAllDone(kind, d, items);
      r := Ok(());
    }

    /** The class-attribute pass of `BeneDict.__init__`:
        `setattr(self, k, getattr(self, k))` for every class attribute that
        is neither a dunder nor a native method name, which on a Config is
        `extend` alone (the stored value if there is one, else the class's
        method), and on a BeneDict nothing. */
    method ReSetClassAttrs()
      requires BeneFamily(kind) && Valid()
      modifies this
      ensures Valid() && items == Template(kind, old(items))
      ensures NormalDict(kind, Snapshot())
    {
      TemplateSound(kind, items);
      if kind == Config {
        TemplateBySet(items);
        var cur := GetAttr("extend");
        var s := Set(ExtendKey, cur.value);
      }
    }

    /** `BeneDict.__init__(self, d, **kwargs)` on a new instance. */
    method InitBene(d: Value, kwargs: seq<Entry>) returns (r: Result<()>)
      requires BeneFamily(kind) && items == [] && attrs == map[]
      modifies this
      ensures r.Ok? <==> BeneInit(kind, d, kwargs).Ok?
      ensures r.Err? ==> r.error == BeneInit(kind, d, kwargs).error
      ensures r.Ok? ==> Valid() && items == BeneInit(kind, d, kwargs).value && NormalDict(kind, Snapshot())
    {
      if !d.Null? && !d.Dict? {
        return Err(NotADict(d, kwargs));
      }
      assert Valid();
      r := SetEach(Dict(Plain, Update(InitSource(d), kwargs)));
      if r.Ok? {
        ReSetClassAttrs();
      }
    }

    /** `for k, v in items: self.__setattr__(k, v)` over a sequence
        argument of the ordered constructor: each element is unpacked into
        a name and a value, then set; an unhashable name raises once the
        value is normalised. */
    method SetPairsEach(xs: seq<Value>) returns (r: Result<()>)
      requires kind == Ordered && Valid()
      modifies this
      ensures Valid()
      ensures r.Ok? <==> SetPairs(xs, old(items), 0).Ok?
      ensures r.Err? ==> r.error == SetPairs(xs, old(items), 0).error
      ensures r.Ok? ==> items == SetPairs(xs, old(items), 0).value
    {
      var i := 0;
      while i < |xs|
        invariant 0 <= i <= |xs| && Valid()
        invariant SetPairs(xs, old(items), 0) == SetPairs(xs, items, i)
      {
        SetPairsCases(xs, items, i);
        var kv := Unpack(xs[i]);
        if kv.Err? {
          return Err(kv.error);
        }
        var (k, v) := kv.value;
        var key := HashKey(k);
        if key.Err? {
          var nv := Normalize.Normalize(Ordered, v);
          if nv.Err? {
            return Err(nv.error);
          }
          return Err(key.error);
        }
        var s := Set(key.value, v);
        if s.Err? {
          return Err(s.error);
        }
        i := i + 1;
      }
      r := Ok(());
    }

    /** `OrderedBeneDict.__init__(self, *args, **kwargs)` on a new instance. */
    method InitOrdered(args: seq<Value>, kwargs: seq<Entry>) returns (r: Result<()>)
      requires kind == Ordered && items == [] && attrs == map[]
      modifies this
      ensures r.Ok? <==> OrderedInit(args, kwargs).Ok?
      ensures r.Err? ==> r.error == OrderedInit(args, kwargs).error
      ensures r.Ok? ==> Valid() && items == OrderedInit(args, kwargs).value
    {
      if |args| > 1 {
        return Err(TooManyArgs);
      }
      assert Valid();
      if |args| == 1 {
        var a := args[0];
        if a.Dict? {
          r := SetEach(a);
        } else if a.List? || a.Tuple? {
          r := SetPairsEach(a.elems);
        } else if a.Str? {
          r := SetPairsEach(Chars(a.s));
        } else {
          r := Err(NotMappingOrSequence);
        }
        if r.Err? {
          return;
        }
      }
      r := SetEach(Dict(Plain, kwargs));
    }

    /** The loop body of the walk over the instance for the default entry
        `key: dv`: decide, then store through the setter. */
    method FillStep(key: Key, dv: Value) returns (r: Result<()>)
      requires Valid()
      modifies this
      ensures Valid()
      ensures r.Ok? <==> FillKey(old(Snapshot()), key, dv, []).Ok?
      ensures r.Err? ==> r.error == FillKey(old(Snapshot()), key, dv, []).error && items == old(items)
      ensures r.Ok? ==> Snapshot() == FillKey(old(Snapshot()), key, dv, []).value
    {
      FillKeyCases(Snapshot(), key, dv, []);
      var dec := DecideStep(Get(items, key), key, dv, []);
      if dec.Err? {
        return Err(dec.error);
      }
      if dec.value.Some? {
        var s := Set(key, dec.value.value);
        if s.Err? {
          return Err(s.error);
        }
      }
      r := Ok(());
    }

    /** `Config.extend(default_config)`: asserts a dict, then fills the
        instance in place, storing through its own setter. On success the
        instance holds what the walk leaves; on failure the walk's error is
        raised (and the keys stored before it stay stored). Defaults whose
        `items` is hidden raise before anything is stored. */
    method Extend(d: Value) returns (r: Result<()>)
      requires kind == Config && Valid()
      modifies this
      ensures Valid()
      ensures !d.Dict? ==> r == Err(AssertionError("")) && items == old(items)
      ensures ItemsShadowed(d) ==> r == Err(ItemsError(d)) && items == old(items)
      ensures d.Dict? ==> (r.Ok? <==> Fill(old(Snapshot()), d, []).Ok?)
      ensures d.Dict? && r.Err? ==> r.error == Fill(old(Snapshot()), d, []).error
      ensures d.Dict? && r.Ok? ==> Snapshot() == Fill(old(Snapshot()), d, []).value
    {
      if !d.Dict? {
        return Err(AssertionError(""));
      }
      if ItemsShadowed(d) {
        return Err(ItemsError(d));
      }
      r := ExtendEach(d);
    }

    /** The loop of `_fill_default_config` over the defaults `d`, storing
        through the instance's own setter. */
    method ExtendEach(d: Value) returns (r: Result<()>)
      requires kind == Config && Valid() && d.Dict? && !ItemsShadowed(d)
      modifies this
      ensures Valid()
      ensures r.Ok? <==> Fill(old(Snapshot()), d, []).Ok?
      ensures r.Err? ==> r.error == Fill(old(Snapshot()), d, []).error
      ensures r.Ok? ==> Snapshot() == Fill(old(Snapshot()), d, []).value
    {
      ghost var start := Snapshot();
      var i := 0;
      while i < |d.entries|
        invariant 0 <= i <= |d.entries| && Valid()
        invariant Fill(start, d, []) == FillFrom(Snapshot(), d, [], i)
      {
        FillFromCases(Snapshot(), d, [], i);
        r := FillStep(d.entries[i].key, d.entries[i].val);
        if r.Err? {
          return;
        }
        i := i + 1;
      }
      r := Ok(());
    }
  }
}
