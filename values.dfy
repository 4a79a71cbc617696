/** The value domain shared by both components: the Python values a tree can
    hold, the dictionary kinds that matter (a plain dict, a BeneDict, a Config,
    an OrderedBeneDict), the exceptions the code raises, and insertion-ordered
    entry lists with first-match lookup, which is how a Python dict iterates. */
module Values {

  datatype Option<+T> = None | Some(value: T)

  /** A raised exception. Messages are the strings the source builds; the one
      message that embeds the repr of a sub-tree keeps the tree as a value. */
  datatype Error =
    | ConfigError(msg: string)
    | ConfigErrorShowing(before: string, shown: Value, after: string)
    | ValueError(msg: string)
    | TypeError(msg: string)
    | AttributeError(msg: string)
    | AssertionError(msg: string)
    | KeyError(key: Key)

  datatype Result<+T> = Ok(value: T) | Err(error: Error) {
    predicate IsFailure() { Err? }
    function PropagateFailure<U>(): Result<U>
      requires Err?
    {
      Err(error)
    }
    function Extract(): T
      requires Ok?
    {
      value
    }
  }

  /** A real that is not an integer. */
  type Fraction = r: real | r.Floor as real != r witness 1.0 / 2.0

  /** Hashable keys, two of them equal exactly when a Python dict takes
      them for the same key. Python identifies `True` with `1` and `2.0`
      with `2`, so an integral number has the integer key and only a float
      that is not integral has a float key; a tuple of hashable values is
      the tuple of their keys. */
  datatype Key = StrKey(s: string) | IntKey(i: int) | FloatKey(r: Fraction) | NullKey | TupleKey(elems: seq<Key>)

  /** The concrete class of a mapping: `dict`, `BeneDict`, `Config` (a
      subclass of BeneDict) or `OrderedBeneDict`. */
  datatype Kind = Plain | Bene | Config | Ordered

  /** The BeneDict classes, whose instances are `isinstance(x, BeneDict)`. */
  predicate BeneFamily(k: Kind) { k == Bene || k == Config }

  /** A Python value. `Method` stands for a callable such as a bound method;
      `Float` is only a tag for a float, no arithmetic is done on it. */
  datatype Value =
    | Null
    | Bool(b: bool)
    | Int(i: int)
    | Float(r: real)
    | Str(s: string)
    | Method(name: string)
    | List(elems: seq<Value>)
    | Tuple(elems: seq<Value>)
    | Dict(kind: Kind, entries: seq<Entry>)

  datatype Entry = Entry(key: Key, val: Value)

  /** `type(v).__name__` */
  function TypeName(v: Value): string {
    match v
    case Null => "NoneType"
    case Bool(_) => "bool"
    case Int(_) => "int"
    case Float(_) => "float"
    case Str(_) => "str"
    case Method(_) => "method"
    case List(_) => "list"
    case Tuple(_) => "tuple"
    case Dict(k, _) =>
      match k
      case Plain => "dict"
      case Bene => "BeneDict"
      case Config => "Config"
      case Ordered => "OrderedBeneDict"
  }

  /** `s[i]`, under a name of its own so that distinctness is unfolded
      only at the positions a proof names (see `DistinctAt`). */
  function At<T>(s: seq<T>, i: nat): T
    requires i < |s|
  {
    s[i]
  }

  /** No element occurs twice. */
  predicate Distinct<T(==)>(s: seq<T>) {
    forall i, j :: 0 <= i < j < |s| ==> At(s, i) != At(s, j)
  }

  lemma DistinctAt<T>(s: seq<T>, i: nat, j: nat)
    requires Distinct(s) && i < |s| && j < |s| && i != j
    ensures s[i] != s[j]
  {
    if i < j {
      assert At(s, i) != At(s, j);
    } else {
      assert At(s, j) != At(s, i);
    }
  }

  function KeysOf(es: seq<Entry>): (ks: seq<Key>)
    ensures |ks| == |es|
    ensures forall i :: 0 <= i < |es| ==> ks[i] == es[i].key
  {
    if es == [] then [] else [es[0].key] + KeysOf(es[1..])
  }

  predicate DistinctKeys(es: seq<Entry>) { Distinct(KeysOf(es)) }

  /** The index of the first entry under key `k`. */
  function Find(es: seq<Entry>, k: Key): (r: Option<nat>)
    ensures r.None? <==> k !in KeysOf(es)
    ensures r.Some? ==> r.value < |es| && es[r.value].key == k
    ensures r.Some? ==> forall j :: 0 <= j < r.value ==> es[j].key != k
  {
    if es == [] then None
    else if es[0].key == k then Some(0)
    else match Find(es[1..], k)
      case None => None
      case Some(j) => Some(j + 1)
  }

  /** `d.get(k)`: the value stored under `k`, if any. */
  function Get(es: seq<Entry>, k: Key): (r: Option<Value>)
    ensures r.None? <==> k !in KeysOf(es)
  {
    match Find(es, k)
    case None => None
    case Some(i) => Some(es[i].val)
  }

  /** `d[k] = v` on the entry list: an existing key keeps its position and
      gets the new value, a new key is appended at the end. */
  function Put(es: seq<Entry>, k: Key, v: Value): (r: seq<Entry>)
    ensures Get(r, k) == Some(v)
    ensures forall k' :: k' != k ==> Get(r, k') == Get(es, k')
    ensures KeysOf(r) == if k in KeysOf(es) then KeysOf(es) else KeysOf(es) + [k]
    ensures DistinctKeys(es) ==> DistinctKeys(r)
  {
    match Find(es, k)
    case None =>
      PutAppend(es, k, v);
      es + [Entry(k, v)]
    case Some(i) =>
      PutReplace(es, i, k, v);
      es[i := Entry(k, v)]
  }

  lemma PutAppend(es: seq<Entry>, k: Key, v: Value)
    requires k !in KeysOf(es)
    ensures KeysOf(es + [Entry(k, v)]) == KeysOf(es) + [k]
    ensures Get(es + [Entry(k, v)], k) == Some(v)
    ensures forall k' :: k' != k ==> Get(es + [Entry(k, v)], k') == Get(es, k')
    ensures DistinctKeys(es) ==> DistinctKeys(es + [Entry(k, v)])
  {
    var r := es + [Entry(k, v)];
    assert KeysOf(r) == KeysOf(es) + [k];
    forall k' | k' != k ensures Get(r, k') == Get(es, k') {
      FindAppend(es, Entry(k, v), k');
    }
    FindAppend(es, Entry(k, v), k);
    if DistinctKeys(es) {
      DistinctAppend(KeysOf(es), k);
    }
  }

  /** In a sequence without repeats, an element does not occur before its
      own position. */
  lemma FreshAt<T>(s: seq<T>, i: nat)
    requires Distinct(s) && i < |s|
    ensures s[i] !in s[..i] && s[..i + 1] == s[..i] + [s[i]]
  {
    forall j | 0 <= j < i ensures s[..i][j] != s[i] {
      DistinctAt(s, j, i);
    }
  }

  lemma DistinctAppend<T>(s: seq<T>, x: T)
    requires Distinct(s) && x !in s
    ensures Distinct(s + [x])
  {
    var t := s + [x];
    forall i, j | 0 <= i < j < |t| ensures At(t, i) != At(t, j) {
      if j < |s| {
        DistinctAt(s, i, j);
      }
    }
  }

  lemma FindAppend(es: seq<Entry>, e: Entry, k: Key)
    ensures Find(es + [e], k) == if k in KeysOf(es) then Find(es, k)
                                 else if e.key == k then Some(|es|) else None
  {
    if es != [] {
      assert (es + [e])[1..] == es[1..] + [e];
      FindAppend(es[1..], e, k);
    }
  }

  lemma PutReplace(es: seq<Entry>, i: nat, k: Key, v: Value)
    requires Find(es, k) == Some(i)
    ensures KeysOf(es[i := Entry(k, v)]) == KeysOf(es)
    ensures Get(es[i := Entry(k, v)], k) == Some(v)
    ensures forall k' :: k' != k ==> Get(es[i := Entry(k, v)], k') == Get(es, k')
  {
    var r := es[i := Entry(k, v)];
    assert KeysOf(r) == KeysOf(es);
    FindReplaceSame(es, i, k, v);
    forall k' | k' != k ensures Get(r, k') == Get(es, k') {
      FindAfterReplace(es, i, k, v, k');
    }
  }

  lemma FindReplaceSame(es: seq<Entry>, i: nat, k: Key, v: Value)
    requires Find(es, k) == Some(i)
    ensures Find(es[i := Entry(k, v)], k) == Some(i)
  {
    var es' := es[i := Entry(k, v)];
    assert KeysOf(es')[i] == k;
    assert forall j :: 0 <= j < i ==> es'[j].key != k;
  }

  lemma FindAfterReplace(es: seq<Entry>, i: nat, k: Key, v: Value, k': Key)
    requires i < |es| && es[i].key == k && k' != k
    ensures Find(es[i := Entry(k, v)], k') == Find(es, k')
  {
    if i > 0 {
      assert es[i := Entry(k, v)][1..] == es[1..][i - 1 := Entry(k, v)];
      FindAfterReplace(es[1..], i - 1, k, v, k');
    } else {
      assert es[i := Entry(k, v)][1..] == es[1..];
    }
  }

  /** `dict.update(d, **kwargs)`: every keyword entry is stored with Put. */
  function Update(es: seq<Entry>, kws: seq<Entry>): (r: seq<Entry>)
    ensures DistinctKeys(es) ==> DistinctKeys(r)
    decreases |kws|
  {
    if kws == [] then es
    else Update(Put(es, kws[0].key, kws[0].val), kws[1..])
  }

  /** `dict.update` keeps the keys already there in their order and
      appends the keyword keys it lacked, in keyword order. */
  lemma {:induction false} UpdateKeys(es: seq<Entry>, kws: seq<Entry>)
    requires DistinctKeys(kws)
    ensures KeysOf(Update(es, kws)) == KeysOf(es) + NewKeys(KeysOf(es), KeysOf(kws))
    decreases |kws|
  {
    var ks := KeysOf(kws);
    if kws == [] {
      assert KeysOf(es) + [] == KeysOf(es);
    } else {
      assert KeysOf(kws[1..]) == ks[1..];
      DistinctTail(ks);
      UpdateKeys(Put(es, kws[0].key, kws[0].val), kws[1..]);
      NewKeysStep(KeysOf(es), ks, 0);
      assert ks[0..] == ks;
    }
  }

  /** After `dict.update`, a keyword key holds the keyword's value and every
      other key holds what it held before. */
  lemma {:induction false} UpdateGet(es: seq<Entry>, kws: seq<Entry>, k: Key)
    requires DistinctKeys(kws)
    ensures Get(Update(es, kws), k) == if k in KeysOf(kws) then Get(kws, k) else Get(es, k)
    decreases |kws|
  {
    if kws != [] {
      var ks := KeysOf(kws);
      assert KeysOf(kws[1..]) == ks[1..];
      DistinctTail(ks);
      UpdateGet(Put(es, kws[0].key, kws[0].val), kws[1..], k);
      GetFirst(kws, k);
      if k == kws[0].key {
        forall j | 1 <= j < |ks| ensures ks[j] != k {
          DistinctAt(ks, j, 0);
        }
        assert k !in ks[1..];
      }
    }
  }

  /** `dict.update` with a leading entry puts that entry first. */
  lemma UpdateCons(es: seq<Entry>, e: Entry, rest: seq<Entry>)
    ensures Update(es, [e] + rest) == Update(Put(es, e.key, e.val), rest)
  {
    assert ([e] + rest)[1..] == rest;
  }

  /** The keys of `ks` missing from `have`, each once, in the order of
      their first occurrence in `ks`. */
  function FirstNew(have: seq<Key>, ks: seq<Key>): (r: seq<Key>)
    ensures forall k :: k in r <==> k in ks && k !in have
    ensures Distinct(have) ==> Distinct(have + r)
    decreases |ks|
  {
    if ks == [] then
      assert have + [] == have;
      []
    else if ks[0] in have then FirstNew(have, ks[1..])
    else
      var rest := FirstNew(have + [ks[0]], ks[1..]);
      DistinctAppendNew(have, ks[0]);
      assert have + ([ks[0]] + rest) == have + [ks[0]] + rest;
      [ks[0]] + rest
  }

  lemma DistinctAppendNew<T>(s: seq<T>, x: T)
    requires x !in s
    ensures Distinct(s) ==> Distinct(s + [x])
  {
    if Distinct(s) {
      DistinctAppend(s, x);
    }
  }

  /** The position of the last entry under `k`. */
  function LastAt(es: seq<Entry>, k: Key): (r: nat)
    requires k in KeysOf(es)
    ensures r < |es| && es[r].key == k
    ensures forall m :: r < m < |es| ==> es[m].key != k
  {
    assert KeysOf(es) == [es[0].key] + KeysOf(es[1..]);
    if k in KeysOf(es[1..]) then LastAt(es[1..], k) + 1
    else
      assert forall j' :: 0 < j' < |es| ==> KeysOf(es[1..])[j' - 1] == es[j'].key;
      0
  }

  /** `dict.update` with keywords that may repeat a key: the keys already
      there keep their order, and each new keyword key is appended once,
      where it first occurs. */
  lemma {:induction false} UpdateKeysAll(es: seq<Entry>, kws: seq<Entry>)
    ensures KeysOf(Update(es, kws)) == KeysOf(es) + FirstNew(KeysOf(es), KeysOf(kws))
    decreases |kws|
  {
    if kws == [] {
      assert KeysOf(es) + [] == KeysOf(es);
    } else {
      var k0 := kws[0].key;
      var es' := Put(es, k0, kws[0].val);
      assert KeysOf(kws) == [k0] + KeysOf(kws[1..]);
      UpdateKeysAll(es', kws[1..]);
      FirstNewStep(KeysOf(es), k0, KeysOf(kws[1..]), KeysOf(Update(es', kws[1..])));
    }
  }

  /** One key of `FirstNew`: the keys so far, grown by `k0` when it is new,
      followed by the new keys of the rest. */
  lemma FirstNewStep(have: seq<Key>, k0: Key, tail: seq<Key>, r: seq<Key>)
    requires var have' := if k0 in have then have else have + [k0];
             r == have' + FirstNew(have', tail)
    ensures r == have + FirstNew(have, [k0] + tail)
  {
    if k0 in have {
      FirstNewOld(have, k0, tail);
    } else {
      FirstNewAdd(have, k0, tail);
    }
  }

  lemma FirstNewOld(have: seq<Key>, k0: Key, tail: seq<Key>)
    requires k0 in have
    ensures FirstNew(have, [k0] + tail) == FirstNew(have, tail)
  {
    assert ([k0] + tail)[1..] == tail;
  }

  lemma FirstNewAdd(have: seq<Key>, k0: Key, tail: seq<Key>)
    requires k0 !in have
    ensures (have + [k0]) + FirstNew(have + [k0], tail) == have + FirstNew(have, [k0] + tail)
  {
    assert ([k0] + tail)[0] == k0 && ([k0] + tail)[1..] == tail;
    var rest := FirstNew(have + [k0], tail);
    assert FirstNew(have, [k0] + tail) == [k0] + rest;
    assert (have + [k0]) + rest == have + ([k0] + rest);
  }

  /** After `dict.update` with keywords that may repeat a key, a keyword key
      holds the value of its last keyword entry: the later one overwrites. */
  lemma {:induction false} UpdateGetAll(es: seq<Entry>, kws: seq<Entry>, k: Key)
    ensures Get(Update(es, kws), k) == if k in KeysOf(kws) then Some(kws[LastAt(kws, k)].val) else Get(es, k)
    decreases |kws|
  {
    if kws != [] {
      var k0 := kws[0].key;
      assert KeysOf(kws) == [k0] + KeysOf(kws[1..]);
      UpdateGetAll(Put(es, k0, kws[0].val), kws[1..], k);
      if k in KeysOf(kws[1..]) {
        assert LastAt(kws, k) == LastAt(kws[1..], k) + 1;
      }
    }
  }

  /** Lookup in a non-empty entry list: the first entry, or the rest. */
  lemma GetFirst(es: seq<Entry>, k: Key)
    requires es != []
    ensures Get(es, k) == if es[0].key == k then Some(es[0].val) else Get(es[1..], k)
    ensures k in KeysOf(es) <==> k == es[0].key || k in KeysOf(es[1..])
  {
  }

  /** A non-empty suffix is its first element followed by the next suffix. */
  lemma SliceCons<T>(s: seq<T>, i: nat)
    requires i < |s|
    ensures s[i..] == [s[i]] + s[i + 1..]
  {
  }

  /** Membership in a suffix, one element at a time. */
  lemma SliceMember<T>(s: seq<T>, i: nat, x: T)
    requires i < |s|
    ensures x in s[i..] <==> x == s[i] || x in s[i + 1..]
  {
    assert s[i..] == [s[i]] + s[i + 1..];
  }

  lemma DistinctTail<T>(s: seq<T>)
    requires Distinct(s) && s != []
    ensures Distinct(s[1..])
  {
    var t := s[1..];
    forall i, j | 0 <= i < j < |t| ensures At(t, i) != At(t, j) {
      DistinctAt(s, i + 1, j + 1);
    }
  }

  /** The keys of `ks` missing from `have`, in the order of `ks`. */
  function NewKeys(have: seq<Key>, ks: seq<Key>): (r: seq<Key>)
    ensures forall k :: k in r <==> k in ks && k !in have
  {
    if ks == [] then []
    else (if ks[0] in have then [] else [ks[0]]) + NewKeys(have, ks[1..])
  }

  /** Adding a key that `ks` does not hold to `have` leaves `NewKeys` alone. */
  lemma {:induction false} NewKeysIgnore(have: seq<Key>, x: Key, ks: seq<Key>)
    requires x !in ks
    ensures NewKeys(have + [x], ks) == NewKeys(have, ks)
  {
    if ks != [] {
      NewKeysIgnore(have, x, ks[1..]);
    }
  }

  /** Walking one key of a list with distinct keys: the keys held so far
      followed by the new ones is the same before and after the step. */
  lemma NewKeysStep(have: seq<Key>, ks: seq<Key>, i: nat)
    requires Distinct(ks) && i < |ks|
    ensures var have' := if ks[i] in have then have else have + [ks[i]];
            have' + NewKeys(have', ks[i + 1..]) == have + NewKeys(have, ks[i..])
  {
    var k := ks[i];
    assert ks[i..] == [k] + ks[i + 1..];
    if k !in have {
      assert k !in ks[i + 1..] by {
        forall j | i + 1 <= j < |ks| ensures ks[j] != k {
          DistinctAt(ks, j, i);
        }
      }
      NewKeysNew(have, k, ks[i + 1..]);
    }
  }

  /** `NewKeysStep` for a key list `r` known from the step after `i`. */
  lemma KeysAfterStep(r: seq<Key>, have: seq<Key>, have': seq<Key>, ks: seq<Key>, i: nat)
    requires Distinct(ks) && i < |ks|
    requires have' == if ks[i] in have then have else have + [ks[i]]
    requires r == have' + NewKeys(have', ks[i + 1..])
    ensures r == have + NewKeys(have, ks[i..])
  {
    NewKeysStep(have, ks, i);
  }

  /** A key list without repeats stays so when the new keys of a list
      without repeats are appended. */
  lemma {:induction false} NewKeysDistinct(have: seq<Key>, ks: seq<Key>, i: nat)
    requires Distinct(have) && Distinct(ks) && i <= |ks|
    ensures Distinct(have + NewKeys(have, ks[i..]))
    decreases |ks| - i
  {
    if i == |ks| {
      assert ks[i..] == [];
      assert have + [] == have;
    } else {
      var have' := if ks[i] in have then have else have + [ks[i]];
      if ks[i] !in have {
        DistinctAppend(have, ks[i]);
      }
      NewKeysDistinct(have', ks, i + 1);
      NewKeysStep(have, ks, i);
    }
  }

  lemma NewKeysNew(have: seq<Key>, k: Key, ks: seq<Key>)
    requires k !in have && k !in ks
    ensures (have + [k]) + NewKeys(have + [k], ks) == have + NewKeys(have, [k] + ks)
  {
    NewKeysIgnore(have, k, ks);
    assert ([k] + ks)[1..] == ks;
  }
}
