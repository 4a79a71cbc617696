/** The normalising setter shared by BeneDict (`benedict/__init__.py`) and
    OrderedBeneDict (`benedict/ordered.py`), and the construction `cls(x)`
    that it applies to every dict value: protected names are refused, a
    dict becomes a fresh instance of the container's class, a list or tuple
    is rebuilt with its dict elements wrapped, and the (normalised) value
    is stored under the name. */
module Normalize {
  import opened Values
  import opened Names

  /** The classes whose setter normalises: every kind but a plain dict. */
  predicate Wrapping(kind: Kind) { kind != Plain }

  /** The protected-name list the setter of `kind` checks. */
  function ProtectedNames(kind: Kind): seq<string> {
    if kind == Ordered then OrderedProtected else BeneProtected
  }

  /** The methods whose `builtin_` aliases `kind` protects. */
  function MethodNames(kind: Kind): seq<string> {
    if kind == Ordered then OrderedMethodNames else BeneMethodNames
  }

  /** A name the setter of `kind` refuses: a string that is a member of the
      protected list, stated as the `builtin_` name of a listed method (see
      `ProtectedIff`). */
  predicate IsProtected(kind: Kind, k: Key) {
    k.StrKey? && IsBuiltin(k.s) && OriginalName(k.s) in MethodNames(kind)
  }

  /** The setter refuses exactly the names on its protected list. */
  lemma ProtectedIff(kind: Kind, k: Key)
    ensures IsProtected(kind, k) <==> k.StrKey? && k.s in ProtectedNames(kind)
  {
    if k.StrKey? {
      if kind == Ordered {
        OrderedProtectedIff(k.s);
      } else {
        BeneProtectedIff(k.s);
      }
    }
  }

  /** The data may shadow a method: a plain method name such as `keys` is
      never refused, while its `builtin_` alias always is. */
  lemma MethodNamesStorable(kind: Kind, m: string)
    requires m in MethodNames(kind)
    ensures !IsProtected(kind, StrKey(m)) && IsProtected(kind, StrKey(BuiltinName(m)))
  {
    BuiltinRoundTrip(m);
    if kind == Ordered {
      OrderedNamesPlain(m);
    } else {
      BeneNamesPlain(m);
    }
  }

  /** The two setters word the refusal differently; a Config is refused in
      the words of BeneDict, whose setter it inherits. */
  function ProtectedError(kind: Kind, name: string): (r: Error)
    ensures r.ValueError?
  {
    if kind == Ordered then ValueError("Cannot override `" + name + "()`: OrderedBeneDict protected method")
    else ValueError("Cannot override `" + name + "`: BeneDict protected method")
  }

  /** `object.__setattr__` and builtin `setattr` refuse a non-string name. */
  const NameNotString: Error := TypeError("attribute name must be string")

  /** Config's class body defines `extend`, the one class attribute that is
      neither a dunder nor a native method name, so every Config instance
      re-sets it as data. */
  const ExtendKey: Key := StrKey("extend")
  const ExtendMethod: Value := Method("extend")

  /** A key the setter of `kind` stores without raising. */
  predicate KeyAllowed(kind: Kind, k: Key) {
    !IsProtected(kind, k) && (BeneFamily(kind) ==> k.StrKey?)
  }

  /** The entry the constructor of `kind` cannot set. */
  predicate EntryFails(kind: Kind, e: Entry)
    requires Wrapping(kind)
    decreases e.val, 3
  {
    !KeyAllowed(kind, e.key) || Normalize(kind, e.val).Err?
  }

  /** What the setter raises: ValueError for a protected name, TypeError
      for a name a BeneDict cannot take as an attribute. */
  predicate SetterError(e: Error) {
    e.ValueError? || e == NameNotString
  }

  /** The value the setter of `kind` stores for `v`. */
  function Normalize(kind: Kind, v: Value): (r: Result<Value>)
    requires Wrapping(kind)
    ensures r.Err? ==> SetterError(r.error)
    ensures !(v.List? || v.Tuple? || v.Dict?) ==> r == Ok(v)
    ensures r.Ok? && v.Dict? ==> r.value.Dict? && r.value.kind == kind
    ensures r.Ok? && v.List? ==> r.value.List? && |r.value.elems| == |v.elems|
    ensures r.Ok? && v.Tuple? ==>
              (if kind == Ordered then r.value.Tuple? else r.value.List?) && |r.value.elems| == |v.elems|
    decreases v, 2
  {
    match v
    case List(xs) =>
      var ys :- NormalizeElems(kind, v, 0);
      Ok(List(ys))
    case Tuple(xs) =>
      var ys :- NormalizeElems(kind, v, 0);
      Ok(if kind == Ordered then Tuple(ys) else List(ys))
    case Dict(_, _) =>
      var es :- Construct(kind, v);
      Ok(Dict(kind, es))
    case _ => Ok(v)
  }

  /** The elements from `i` on of a list or tuple, rebuilt (see
      `ElemsContents`). */
  function NormalizeElems(kind: Kind, v: Value, i: nat): (r: Result<seq<Value>>)
    requires Wrapping(kind) && (v.List? || v.Tuple?) && i <= |v.elems|
    ensures r.Ok? ==> |r.value| == |v.elems| - i
    ensures r.Err? ==> SetterError(r.error)
    decreases v, 0, |v.elems| - i
  {
    if i == |v.elems| then Ok([])
    else
      var x := v.elems[i];
      if x.Dict? then
        var es :- Construct(kind, x);
        var rest :- NormalizeElems(kind, v, i + 1);
        Ok([Dict(kind, es)] + rest)
      else
        var rest :- NormalizeElems(kind, v, i + 1);
        Ok([x] + rest)
  }

  /** `cls(d)` for a dict `d`: every entry is set in order through the
      setter (BeneDict's builtin `setattr` refuses a non-string name first),
      then the class-attribute template is applied. */
  function Construct(kind: Kind, d: Value): (r: Result<seq<Entry>>)
    requires Wrapping(kind) && d.Dict?
    ensures r.Ok? ==> DistinctKeys(r.value)
    ensures r.Err? ==> SetterError(r.error)
    decreases d, 1
  {
    var es :- SetAll(kind, d, [], 0);
    Ok(Template(kind, es))
  }

  /** Sets the entries of `d` from `i` on into `acc`. */
  function SetAll(kind: Kind, d: Value, acc: seq<Entry>, i: nat): (r: Result<seq<Entry>>)
    requires Wrapping(kind) && d.Dict? && i <= |d.entries|
    ensures r.Ok? && DistinctKeys(acc) ==> DistinctKeys(r.value)
    ensures r.Err? ==> SetterError(r.error)
    decreases d, 0, |d.entries| - i
  {
    if i == |d.entries| then Ok(acc)
    else
      var e := d.entries[i];
      if BeneFamily(kind) && !e.key.StrKey? then Err(NameNotString)
      else
        var acc' :- SetEntry(kind, acc, e.key, e.val);
        SetAll(kind, d, acc', i + 1)
  }

  /** `d[k] = v` (and `d.k = v`) on an instance of `kind` (see
      `SetEntryMeaning`). */
  function SetEntry(kind: Kind, es: seq<Entry>, k: Key, v: Value): (r: Result<seq<Entry>>)
    requires Wrapping(kind)
    ensures r.Ok? && DistinctKeys(es) ==> DistinctKeys(r.value)
    ensures r.Err? ==> SetterError(r.error)
    decreases v, 4
  {
    if IsProtected(kind, k) then Err(ProtectedError(kind, k.s))
    else
      var nv :- Normalize(kind, v);
      if BeneFamily(kind) && !k.StrKey? then Err(NameNotString)
      else Ok(Put(es, k, nv))
  }

  /** The class-attribute pass of `BeneDict.__init__`: on a Config, `extend`
      is stored as data unless the entries already set hold it (re-setting
      a stored value changes nothing, see `ReSetIdentity`). BeneDict's own
      class body holds only dunders and native names, and OrderedBeneDict
      has no such pass. */
  function Template(kind: Kind, es: seq<Entry>): (r: seq<Entry>)
    ensures kind == Config ==> ExtendKey in KeysOf(r)
    ensures kind == Config && ExtendKey !in KeysOf(es) ==> Get(r, ExtendKey) == Some(ExtendMethod)
    ensures forall k :: k in KeysOf(es) ==> Get(r, k) == Get(es, k)
    ensures KeysOf(r) == KeysOf(es) + (if kind == Config && ExtendKey !in KeysOf(es) then [ExtendKey] else [])
    ensures DistinctKeys(es) ==> DistinctKeys(r)
  {
    if kind == Config && ExtendKey !in KeysOf(es) then Put(es, ExtendKey, ExtendMethod) else es
  }

  // ---- What the setter and the constructor do ----------------------------

  /** The setter: a protected name raises ValueError, then the value is
      normalised, then a BeneDict refuses a non-string name; otherwise the
      normalised value is stored under `k` and no other key changes. */
  lemma SetEntryMeaning(kind: Kind, es: seq<Entry>, k: Key, v: Value)
    requires Wrapping(kind)
    ensures var r := SetEntry(kind, es, k, v);
            (IsProtected(kind, k) ==> r == Err(ProtectedError(kind, k.s)))
            && (r.Err? <==> EntryFails(kind, Entry(k, v)))
            && (r.Ok? ==> Normalize(kind, v).Ok? && r.value == Put(es, k, Normalize(kind, v).value)
                          && Get(r.value, k) == Some(Normalize(kind, v).value)
                          && (forall k' :: k' != k ==> Get(r.value, k') == Get(es, k'))
                          && KeysOf(r.value) == (if k in KeysOf(es) then KeysOf(es) else KeysOf(es) + [k]))
  {
  }

  lemma SetEntryFails(kind: Kind, es: seq<Entry>, k: Key, v: Value)
    requires Wrapping(kind)
    ensures SetEntry(kind, es, k, v).Err? <==> EntryFails(kind, Entry(k, v))
  {
  }

  lemma SetEntryPut(kind: Kind, es: seq<Entry>, k: Key, v: Value)
    requires Wrapping(kind) && SetEntry(kind, es, k, v).Ok?
    ensures Normalize(kind, v).Ok? && SetEntry(kind, es, k, v).value == Put(es, k, Normalize(kind, v).value)
  {
  }

  /** `NormalizeElems` fails exactly when constructing one of the dict
      elements fails. */
  lemma {:induction false} ElemsFail(kind: Kind, v: Value, i: nat)
    requires Wrapping(kind) && (v.List? || v.Tuple?) && i <= |v.elems|
    ensures NormalizeElems(kind, v, i).Err?
            <==> exists j :: i <= j < |v.elems| && v.elems[j].Dict? && Construct(kind, v.elems[j]).Err?
    decreases |v.elems| - i
  {
    if i < |v.elems| {
      ElemsFail(kind, v, i + 1);
    }
  }

  /** `y` is what the list setter makes of the element `x`: a dict element
      becomes the constructed instance, any other element (a nested list
      included) is kept. */
  predicate ElemImage(kind: Kind, x: Value, y: Value)
    requires Wrapping(kind)
  {
    if x.Dict? then Construct(kind, x).Ok? && y == Dict(kind, Construct(kind, x).value) else y == x
  }

  /** `ys[j - i]` is the image of the element at `j`. */
  predicate ImageAt(kind: Kind, v: Value, ys: seq<Value>, i: nat, j: nat)
    requires Wrapping(kind) && (v.List? || v.Tuple?) && i <= j < |v.elems| && j - i < |ys|
  {
    ElemImage(kind, v.elems[j], ys[j - i])
  }

  /** The element-wise reading of `NormalizeElems`. */
  lemma ElemsContents(kind: Kind, v: Value)
    requires Wrapping(kind) && (v.List? || v.Tuple?)
    requires NormalizeElems(kind, v, 0).Ok?
    ensures var ys := NormalizeElems(kind, v, 0).value;
            forall j :: 0 <= j < |v.elems| ==> ElemImage(kind, v.elems[j], ys[j])
  {
    var ys := NormalizeElems(kind, v, 0).value;
    ElemsFrom(kind, v, 0);
    forall j | 0 <= j < |v.elems| ensures ElemImage(kind, v.elems[j], ys[j]) {
      assert ImageAt(kind, v, ys, 0, j);
    }
  }

  lemma {:induction false} ElemsFrom(kind: Kind, v: Value, i: nat)
    requires Wrapping(kind) && (v.List? || v.Tuple?) && i <= |v.elems|
    requires NormalizeElems(kind, v, i).Ok?
    ensures var ys := NormalizeElems(kind, v, i).value;
            forall j :: i <= j < |v.elems| ==> ImageAt(kind, v, ys, i, j)
    decreases |v.elems| - i
  {
    if i < |v.elems| {
      ElemsUnfold(kind, v, i);
      ElemsFrom(kind, v, i + 1);
      ElemsFromStep(kind, v, i, i + 1, NormalizeElems(kind, v, i).value, NormalizeElems(kind, v, i + 1).value);
    }
  }

  /** One step of `NormalizeElems`. */
  lemma ElemsUnfold(kind: Kind, v: Value, i: nat)
    requires Wrapping(kind) && (v.List? || v.Tuple?) && i < |v.elems|
    requires NormalizeElems(kind, v, i).Ok?
    ensures NormalizeElems(kind, v, i + 1).Ok?
    ensures var ys := NormalizeElems(kind, v, i).value;
            |ys| > 0 && ElemImage(kind, v.elems[i], ys[0]) && ys[1..] == NormalizeElems(kind, v, i + 1).value
  {
  }

  /** The conclusion of `ElemsFrom` at `i` from the one at `i + 1`. */
  lemma ElemsFromStep(kind: Kind, v: Value, i: nat, next: nat, ys: seq<Value>, rest: seq<Value>)
    requires Wrapping(kind) && (v.List? || v.Tuple?) && i < |v.elems| && next == i + 1 && |rest| == |v.elems| - next
    requires |ys| > 0 && ElemImage(kind, v.elems[i], ys[0]) && ys[1..] == rest
    requires forall j :: next <= j < |v.elems| ==> ImageAt(kind, v, rest, next, j)
    ensures forall j :: i <= j < |v.elems| ==> ImageAt(kind, v, ys, i, j)
  {
    forall j | i <= j < |v.elems| ensures ImageAt(kind, v, ys, i, j) {
      if j > i {
        assert ImageAt(kind, v, rest, next, j);
        assert ys[j - i] == rest[j - next];
      }
    }
  }

  /** `SetAll` fails exactly when one of the remaining entries cannot be set. */
  lemma {:induction false} SetAllFails(kind: Kind, d: Value, acc: seq<Entry>, i: nat)
    requires Wrapping(kind) && d.Dict? && i <= |d.entries|
    ensures SetAll(kind, d, acc, i).Err? <==> exists j :: i <= j < |d.entries| && EntryFails(kind, d.entries[j])
    decreases |d.entries| - i
  {
    if i < |d.entries| {
      var e := d.entries[i];
      SetAllStep(kind, d, acc, i);
      FailsFromStep(kind, d, i);
      if !EntryFails(kind, e) {
        SetAllFails(kind, d, Put(acc, e.key, Normalize(kind, e.val).value), i + 1);
      }
    }
  }

  lemma FailsFromStep(kind: Kind, d: Value, i: nat)
    requires Wrapping(kind) && d.Dict? && i < |d.entries|
    ensures (exists j :: i <= j < |d.entries| && EntryFails(kind, d.entries[j]))
            <==> EntryFails(kind, d.entries[i]) || exists j :: i + 1 <= j < |d.entries| && EntryFails(kind, d.entries[j])
  {
    if exists j :: i <= j < |d.entries| && EntryFails(kind, d.entries[j]) {
      var j :| i <= j < |d.entries| && EntryFails(kind, d.entries[j]);
      assert j == i || i + 1 <= j;
    }
  }

  /** One step of `SetAll`: a failing entry stops it, any other is stored. */
  lemma SetAllStep(kind: Kind, d: Value, acc: seq<Entry>, i: nat)
    requires Wrapping(kind) && d.Dict? && i < |d.entries|
    ensures var e := d.entries[i];
            if EntryFails(kind, e) then SetAll(kind, d, acc, i).Err?
            else Normalize(kind, e.val).Ok?
                 && SetAll(kind, d, acc, i) == SetAll(kind, d, Put(acc, e.key, Normalize(kind, e.val).value), i + 1)
  {
    var e := d.entries[i];
    SetEntryFails(kind, acc, e.key, e.val);
    if !EntryFails(kind, e) {
      SetEntryPut(kind, acc, e.key, e.val);
    }
  }

  /** Construction fails exactly when one of the entries cannot be set. */
  lemma ConstructFails(kind: Kind, d: Value)
    requires Wrapping(kind) && d.Dict?
    ensures Construct(kind, d).Err? <==> exists j :: 0 <= j < |d.entries| && EntryFails(kind, d.entries[j])
  {
    SetAllFails(kind, d, [], 0);
  }

  /** With distinct keys, `SetAll` keeps the key order of `d` and stores the
      normalised value of every entry it sets. */
  lemma {:induction false} SetAllContents(kind: Kind, d: Value, acc: seq<Entry>, i: nat)
    requires Wrapping(kind) && d.Dict? && i <= |d.entries|
    requires SetAll(kind, d, acc, i).Ok? && DistinctKeys(d.entries) && KeysOf(acc) == KeysOf(d.entries)[..i]
    ensures var r := SetAll(kind, d, acc, i).value;
            KeysOf(r) == KeysOf(d.entries)
            && (forall j :: 0 <= j < i ==> Get(r, d.entries[j].key) == Get(acc, d.entries[j].key))
            && (forall j :: i <= j < |d.entries| ==>
                  Normalize(kind, d.entries[j].val).Ok?
                  && Get(r, d.entries[j].key) == Some(Normalize(kind, d.entries[j].val).value))
    decreases |d.entries| - i
  {
    if i == |d.entries| {
      assert KeysOf(d.entries)[..i] == KeysOf(d.entries);
    } else {
      var e := d.entries[i];
      SetAllUnfold(kind, d, acc, i);
      var acc' := Put(acc, e.key, Normalize(kind, e.val).value);
      SetAllKeysStep(d, acc, acc', i);
      SetAllContents(kind, d, acc', i + 1);
      SetAllContentsStep(kind, d, acc, acc', SetAll(kind, d, acc, i).value, i);
    }
  }

  /** `SetAll` onto entries set before: those keys keep their place and
      the keys it adds follow in the order of `d`; a key of `d` from `i` on
      holds the normalised value of its entry, any other key what it held. */
  lemma {:induction false} SetAllOnto(kind: Kind, d: Value, acc: seq<Entry>, i: nat)
    requires Wrapping(kind) && d.Dict? && i <= |d.entries| && DistinctKeys(d.entries)
    requires SetAll(kind, d, acc, i).Ok?
    ensures var r := SetAll(kind, d, acc, i).value;
            KeysOf(r) == KeysOf(acc) + NewKeys(KeysOf(acc), KeysOf(d.entries)[i..])
            && (forall k :: k !in KeysOf(d.entries)[i..] ==> Get(r, k) == Get(acc, k))
            && (forall j :: i <= j < |d.entries| ==>
                  Normalize(kind, d.entries[j].val).Ok?
                  && Get(r, d.entries[j].key) == Some(Normalize(kind, d.entries[j].val).value))
    decreases |d.entries| - i
  {
    var ks := KeysOf(d.entries);
    if i == |d.entries| {
      assert ks[i..] == [];
      assert KeysOf(acc) + [] == KeysOf(acc);
    } else {
      var e := d.entries[i];
      SetAllUnfold(kind, d, acc, i);
      var acc' := Put(acc, e.key, Normalize(kind, e.val).value);
      SetAllOnto(kind, d, acc', i + 1);
      var r := SetAll(kind, d, acc, i).value;
      KeysAfterStep(KeysOf(r), KeysOf(acc), KeysOf(acc'), ks, i);
      SetAllOntoStep(kind, d, acc, acc', r, i);
    }
  }

  /** The values promised by `SetAllOnto` at `i` from those at `i + 1`. */
  lemma SetAllOntoStep(kind: Kind, d: Value, acc: seq<Entry>, acc': seq<Entry>, r: seq<Entry>, i: nat)
    requires Wrapping(kind) && d.Dict? && i < |d.entries| && DistinctKeys(d.entries)
    requires Normalize(kind, d.entries[i].val).Ok?
    requires acc' == Put(acc, d.entries[i].key, Normalize(kind, d.entries[i].val).value)
    requires forall k :: k !in KeysOf(d.entries)[i + 1..] ==> Get(r, k) == Get(acc', k)
    requires forall j :: i + 1 <= j < |d.entries| ==>
               Normalize(kind, d.entries[j].val).Ok?
               && Get(r, d.entries[j].key) == Some(Normalize(kind, d.entries[j].val).value)
    ensures forall k :: k !in KeysOf(d.entries)[i..] ==> Get(r, k) == Get(acc, k)
    ensures forall j :: i <= j < |d.entries| ==>
              Normalize(kind, d.entries[j].val).Ok?
              && Get(r, d.entries[j].key) == Some(Normalize(kind, d.entries[j].val).value)
  {
    var ks := KeysOf(d.entries);
    var key := d.entries[i].key;
    forall k | k !in ks[i..] ensures Get(r, k) == Get(acc, k) {
      SliceMember(ks, i, k);
    }
    forall j | i + 1 <= j < |ks| ensures ks[j] != key {
      DistinctAt(ks, j, i);
    }
    assert key !in ks[i + 1..];
    assert Get(r, key) == Get(acc', key);
  }

  /** One step of `SetAll` stores the normalised value of the entry at `i`. */
  lemma SetAllUnfold(kind: Kind, d: Value, acc: seq<Entry>, i: nat)
    requires Wrapping(kind) && d.Dict? && i < |d.entries| && SetAll(kind, d, acc, i).Ok?
    ensures var e := d.entries[i];
            Normalize(kind, e.val).Ok?
            && SetAll(kind, d, acc, i) == SetAll(kind, d, Put(acc, e.key, Normalize(kind, e.val).value), i + 1)
  {
    var e := d.entries[i];
    SetEntryPut(kind, acc, e.key, e.val);
  }

  /** The conclusion of `SetAllContents` at `i` from the one at `i + 1`. */
  lemma SetAllContentsStep(kind: Kind, d: Value, acc: seq<Entry>, acc': seq<Entry>, r: seq<Entry>, i: nat)
    requires Wrapping(kind) && d.Dict? && i < |d.entries| && DistinctKeys(d.entries)
    requires Normalize(kind, d.entries[i].val).Ok?
    requires Get(acc', d.entries[i].key) == Some(Normalize(kind, d.entries[i].val).value)
    requires forall k' :: k' != d.entries[i].key ==> Get(acc', k') == Get(acc, k')
    requires KeysOf(r) == KeysOf(d.entries)
    requires forall j :: 0 <= j < i + 1 ==> Get(r, d.entries[j].key) == Get(acc', d.entries[j].key)
    requires forall j :: i + 1 <= j < |d.entries| ==>
               Normalize(kind, d.entries[j].val).Ok?
               && Get(r, d.entries[j].key) == Some(Normalize(kind, d.entries[j].val).value)
    ensures forall j :: 0 <= j < i ==> Get(r, d.entries[j].key) == Get(acc, d.entries[j].key)
    ensures forall j :: i <= j < |d.entries| ==>
              Normalize(kind, d.entries[j].val).Ok?
              && Get(r, d.entries[j].key) == Some(Normalize(kind, d.entries[j].val).value)
  {
    SetAllValuesStep(d, acc, acc', i);
    forall j | 0 <= j < i ensures Get(r, d.entries[j].key) == Get(acc, d.entries[j].key) {
      assert Get(r, d.entries[j].key) == Get(acc', d.entries[j].key);
    }
    assert Get(r, d.entries[i].key) == Get(acc', d.entries[i].key);
  }

  /** One step of `SetAll` keeps the key hypothesis of `SetAllContents`. */
  lemma SetAllKeysStep(d: Value, acc: seq<Entry>, acc': seq<Entry>, i: nat)
    requires d.Dict? && i < |d.entries|
    requires var k := d.entries[i].key;
             KeysOf(acc') == (if k in KeysOf(acc) then KeysOf(acc) else KeysOf(acc) + [k])
    requires DistinctKeys(d.entries) && KeysOf(acc) == KeysOf(d.entries)[..i]
    ensures KeysOf(acc') == KeysOf(d.entries)[..i + 1]
  {
    FreshAt(KeysOf(d.entries), i);
  }

  /** One step of `SetAll` leaves the entries set before it alone. */
  lemma SetAllValuesStep(d: Value, acc: seq<Entry>, acc': seq<Entry>, i: nat)
    requires d.Dict? && i < |d.entries| && DistinctKeys(d.entries)
    requires forall k' :: k' != d.entries[i].key ==> Get(acc', k') == Get(acc, k')
    ensures forall j :: 0 <= j < i ==> Get(acc', d.entries[j].key) == Get(acc, d.entries[j].key)
  {
    var ks := KeysOf(d.entries);
    forall j | 0 <= j < i ensures Get(acc', d.entries[j].key) == Get(acc, d.entries[j].key) {
      DistinctAt(ks, j, i);
    }
  }

  /** With distinct keys (as every Python dict has), construction keeps the
      key order of `d`, stores the normalised value of each entry, and on a
      Config appends `extend` unless `d` has it. */
  lemma ConstructContents(kind: Kind, d: Value)
    requires Wrapping(kind) && d.Dict? && DistinctKeys(d.entries) && Construct(kind, d).Ok?
    ensures var r := Construct(kind, d).value;
            KeysOf(r) == KeysOf(d.entries) + (if kind == Config && ExtendKey !in KeysOf(d.entries) then [ExtendKey] else [])
            && (forall j :: 0 <= j < |d.entries| ==>
                  Normalize(kind, d.entries[j].val).Ok?
                  && Get(r, d.entries[j].key) == Some(Normalize(kind, d.entries[j].val).value))
            && (kind == Config && ExtendKey !in KeysOf(d.entries) ==> Get(r, ExtendKey) == Some(ExtendMethod))
  {
    SetAllContents(kind, d, [], 0);
    var es := SetAll(kind, d, [], 0).value;
    forall j | 0 <= j < |d.entries| ensures d.entries[j].key in KeysOf(es) {
      assert KeysOf(es)[j] == d.entries[j].key;
    }
  }

  // ---- The shape of stored values ----------------------------------------

  /** A value as the setter of `kind` leaves it. */
  predicate NormalValue(kind: Kind, v: Value)
    decreases v, 1
  {
    match v
    case Dict(_, _) => NormalDict(kind, v)
    case List(xs) => forall i :: 0 <= i < |xs| ==> (xs[i].Dict? ==> NormalDict(kind, xs[i]))
    case Tuple(xs) => kind == Ordered && forall i :: 0 <= i < |xs| ==> (xs[i].Dict? ==> NormalDict(kind, xs[i]))
    case _ => true
  }

  /** An instance of `kind` as its constructor leaves it: distinct allowed
      keys, normal values, and on a Config the `extend` entry. */
  predicate NormalDict(kind: Kind, d: Value)
    decreases d, 0
  {
    d.Dict? && d.kind == kind && DistinctKeys(d.entries)
    && (forall i :: 0 <= i < |d.entries| ==> KeyAllowed(kind, d.entries[i].key))
    && (forall i :: 0 <= i < |d.entries| ==> NormalValue(kind, d.entries[i].val))
    && (kind == Config ==> ExtendKey in KeysOf(d.entries))
  }

  /** The entry lists whose every value is normal for `kind`. */
  predicate NormalEntries(kind: Kind, es: seq<Entry>) {
    DistinctKeys(es)
    && (forall i :: 0 <= i < |es| ==> KeyAllowed(kind, es[i].key))
    && (forall i :: 0 <= i < |es| ==> NormalValue(kind, es[i].val))
  }

  // ---- Soundness: whatever the setter stores is normal --------------------

  lemma {:induction false} NormalizeSound(kind: Kind, v: Value)
    requires Wrapping(kind) && Normalize(kind, v).Ok?
    ensures NormalValue(kind, Normalize(kind, v).value)
    decreases v, 2
  {
    match v
    case List(xs) => ElemsSound(kind, v);
    case Tuple(xs) => ElemsSound(kind, v);
    case Dict(_, _) => ConstructSound(kind, v);
    case _ =>
  }

  lemma {:induction false} ElemsSound(kind: Kind, v: Value)
    requires Wrapping(kind) && (v.List? || v.Tuple?)
    requires NormalizeElems(kind, v, 0).Ok?
    ensures var ys := NormalizeElems(kind, v, 0).value;
            forall j :: 0 <= j < |ys| ==> (ys[j].Dict? ==> NormalDict(kind, ys[j]))
    decreases v, 0
  {
    var ys := NormalizeElems(kind, v, 0).value;
    ElemsContents(kind, v);
    forall j | 0 <= j < |ys| && ys[j].Dict? ensures NormalDict(kind, ys[j]) {
      var x := v.elems[j];
      if x.Dict? {
        ConstructSound(kind, x);
      }
    }
  }

  lemma {:induction false} ConstructSound(kind: Kind, d: Value)
    requires Wrapping(kind) && d.Dict? && Construct(kind, d).Ok?
    ensures NormalDict(kind, Dict(kind, Construct(kind, d).value))
    decreases d, 1
  {
    SetAllSound(kind, d, [], 0);
    TemplateSound(kind, SetAll(kind, d, [], 0).value);
  }

  lemma TemplateSound(kind: Kind, es: seq<Entry>)
    requires Wrapping(kind) && NormalEntries(kind, es)
    ensures NormalDict(kind, Dict(kind, Template(kind, es)))
  {
    var r := Template(kind, es);
    if kind == Config && ExtendKey !in KeysOf(es) {
      var e := Entry(ExtendKey, ExtendMethod);
      assert r == es + [e];
      BeneProtectedIff("extend");
      assert KeyAllowed(kind, e.key);
      forall i | 0 <= i < |r| ensures KeyAllowed(kind, r[i].key) && NormalValue(kind, r[i].val) {
        if i < |es| { assert r[i] == es[i]; }
      }
    }
  }

  lemma {:induction false} SetAllSound(kind: Kind, d: Value, acc: seq<Entry>, i: nat)
    requires Wrapping(kind) && d.Dict? && i <= |d.entries|
    requires NormalEntries(kind, acc) && SetAll(kind, d, acc, i).Ok?
    ensures NormalEntries(kind, SetAll(kind, d, acc, i).value)
    decreases d, 0, |d.entries| - i
  {
    if i < |d.entries| {
      var e := d.entries[i];
      var acc' := SetEntry(kind, acc, e.key, e.val).value;
      assert SetAll(kind, d, acc, i) == SetAll(kind, d, acc', i + 1);
      SetEntrySound(kind, acc, e.key, e.val);
      SetAllSound(kind, d, acc', i + 1);
    }
  }

  /** The setter keeps an instance normal. */
  lemma {:induction false} SetEntrySound(kind: Kind, es: seq<Entry>, k: Key, v: Value)
    requires Wrapping(kind) && NormalEntries(kind, es) && SetEntry(kind, es, k, v).Ok?
    ensures NormalEntries(kind, SetEntry(kind, es, k, v).value)
    decreases v, 4
  {
    SetEntryMeaning(kind, es, k, v);
    var nv := Normalize(kind, v).value;
    NormalizeSound(kind, v);
    PutEntries(es, k, nv);
  }

  /** Every entry of `Put(es, k, v)` is the new entry or an entry of `es`. */
  lemma PutEntries(es: seq<Entry>, k: Key, v: Value)
    ensures forall i :: 0 <= i < |Put(es, k, v)| ==> Put(es, k, v)[i] == Entry(k, v) || Put(es, k, v)[i] in es
  {
    var r := Put(es, k, v);
    match Find(es, k)
    case None =>
      assert r == es + [Entry(k, v)];
    case Some(i) =>
      assert r == es[i := Entry(k, v)];
      forall j | 0 <= j < |r| ensures r[j] == Entry(k, v) || r[j] in es {
        if j != i { assert r[j] == es[j]; }
      }
  }

  // ---- Idempotence: a stored value is stored unchanged again -------------

  lemma {:induction false} NormalizeIdem(kind: Kind, v: Value)
    requires Wrapping(kind) && NormalValue(kind, v)
    ensures Normalize(kind, v) == Ok(v)
    decreases v, 2
  {
    match v
    case List(xs) =>
      ElemsIdem(kind, v);
    case Tuple(xs) =>
      ElemsIdem(kind, v);
    case Dict(_, es) =>
      ConstructIdem(kind, v);
    case _ =>
  }

  lemma {:induction false} ElemsIdem(kind: Kind, v: Value)
    requires Wrapping(kind) && (v.List? || v.Tuple?)
    requires forall j :: 0 <= j < |v.elems| ==> (v.elems[j].Dict? ==> NormalDict(kind, v.elems[j]))
    ensures NormalizeElems(kind, v, 0) == Ok(v.elems)
    decreases v, 0
  {
    forall j | 0 <= j < |v.elems| && v.elems[j].Dict?
      ensures Construct(kind, v.elems[j]) == Ok(v.elems[j].entries)
    {
      ConstructIdem(kind, v.elems[j]);
    }
    ElemsFail(kind, v, 0);
    ElemsContents(kind, v);
    var ys := NormalizeElems(kind, v, 0).value;
    assert ys == v.elems;
  }

  lemma {:induction false} ConstructIdem(kind: Kind, d: Value)
    requires Wrapping(kind) && NormalDict(kind, d)
    ensures Construct(kind, d) == Ok(d.entries)
    decreases d, 1
  {
    forall j | 0 <= j < |d.entries| ensures Normalize(kind, d.entries[j].val) == Ok(d.entries[j].val) {
      NormalizeIdem(kind, d.entries[j].val);
    }
    ConstructFails(kind, d);
    ConstructContents(kind, d);
    EntriesExt(d.entries, Construct(kind, d).value);
  }

  /** Two entry lists with the same distinct keys in the same order, that
      agree on every key, are equal. */
  lemma EntriesExt(a: seq<Entry>, b: seq<Entry>)
    requires KeysOf(a) == KeysOf(b) && DistinctKeys(a)
    requires forall j :: 0 <= j < |a| ==> Get(b, a[j].key) == Some(a[j].val)
    ensures a == b
  {
    forall j | 0 <= j < |a| ensures a[j] == b[j] {
      var k := a[j].key;
      assert b[j].key == k;
      var f := Find(b, k).value;
      if f != j {
        DistinctAt(KeysOf(a), f, j);
      }
    }
  }

  /** The constructor's literal re-set of a key the instance already holds
      (`setattr(self, k, getattr(self, k))`) leaves the instance unchanged. */
  lemma ReSetIdentity(kind: Kind, es: seq<Entry>, k: Key)
    requires Wrapping(kind) && NormalEntries(kind, es) && k in KeysOf(es)
    ensures SetEntry(kind, es, k, Get(es, k).value) == Ok(es)
  {
    var i := Find(es, k).value;
    assert Get(es, k).value == es[i].val;
    NormalizeIdem(kind, es[i].val);
    assert es[i := Entry(k, es[i].val)] == es;
  }

  /** Constructing from an instance of the same class (`deepcopy`, or
      `cls(x)` on a value that is already a `cls`) gives equal contents. */
  lemma CopyIdentity(kind: Kind, es: seq<Entry>)
    requires Wrapping(kind) && NormalDict(kind, Dict(kind, es))
    ensures Construct(kind, Dict(kind, es)) == Ok(es)
  {
    ConstructIdem(kind, Dict(kind, es));
  }

  /** Construction reads only the entries of its argument, not its class. */
  lemma ConstructEntriesOnly(kind: Kind, d1: Value, d2: Value)
    requires Wrapping(kind) && d1.Dict? && d2.Dict? && d1.entries == d2.entries
    ensures Construct(kind, d1) == Construct(kind, d2)
  {
    SetAllEntriesOnly(kind, d1, d2, [], 0);
  }

  lemma {:induction false} SetAllEntriesOnly(kind: Kind, d1: Value, d2: Value, acc: seq<Entry>, i: nat)
    requires Wrapping(kind) && d1.Dict? && d2.Dict? && d1.entries == d2.entries && i <= |d1.entries|
    ensures SetAll(kind, d1, acc, i) == SetAll(kind, d2, acc, i)
    decreases |d1.entries| - i
  {
    if i < |d1.entries| {
      var e := d1.entries[i];
      var s := SetEntry(kind, acc, e.key, e.val);
      if s.Ok? {
        SetAllEntriesOnly(kind, d1, d2, s.value, i + 1);
      }
    }
  }

  /** What a BeneDict stores a Config can store, and the other way round:
      the two classes refuse the same names, so rebuilding a stored tree as
      the other class cannot fail. */
  lemma {:induction false} RewrapValue(k1: Kind, k2: Kind, v: Value)
    requires BeneFamily(k1) && BeneFamily(k2) && NormalValue(k1, v)
    ensures Normalize(k2, v).Ok?
    decreases v, 1
  {
    match v
    case Dict(_, _) =>
      RewrapEntries(k1, k2, v);
    case List(xs) =>
      forall j | 0 <= j < |xs| && xs[j].Dict? ensures Construct(k2, xs[j]).Ok? {
        RewrapEntries(k1, k2, xs[j]);
      }
      ElemsFail(k2, v, 0);
    case _ =>
  }

  lemma {:induction false} RewrapEntries(k1: Kind, k2: Kind, d: Value)
    requires BeneFamily(k1) && BeneFamily(k2) && d.Dict? && NormalEntries(k1, d.entries)
    ensures Construct(k2, d).Ok?
    decreases d, 0
  {
    forall j | 0 <= j < |d.entries| ensures !EntryFails(k2, d.entries[j]) {
      assert KeyAllowed(k1, d.entries[j].key);
      RewrapValue(k1, k2, d.entries[j].val);
    }
    ConstructFails(k2, d);
  }
}
