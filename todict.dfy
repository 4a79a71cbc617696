/** `ezdict_to_dict` (`benedict/__init__.py`): strips the BeneDict wrapper
    from a tree. BeneDict values are converted recursively, lists stay lists
    and tuples stay tuples with their BeneDict elements converted, and every
    other value is passed through as it is. */
module Unwrap {
  import opened Values
  import opened Normalize

  /** `ezdict_to_dict(d)`: a fresh plain dict, one entry per entry of `d`
      in the order of `d` (see `ToDictKeys` and `ToDictGet`). */
  function ToDict(d: Value): (r: Value)
    requires d.Dict?
    ensures r.Dict? && r.kind == Plain && |r.entries| == |d.entries|
    decreases d, 2
  {
    Dict(Plain, PlainEntries(d, 0))
  }

  /** The converted entries of `d` from `i` on. */
  function PlainEntries(d: Value, i: nat): (r: seq<Entry>)
    requires d.Dict? && i <= |d.entries|
    ensures |r| == |d.entries| - i
    decreases d, 1, |d.entries| - i
  {
    if i == |d.entries| then []
    else
      assert d.entries[i] in d.entries;
      [Entry(d.entries[i].key, PlainValue(d.entries[i].val))] + PlainEntries(d, i + 1)
  }

  /** What the loop stores for one value of the dict being converted. */
  function PlainValue(v: Value): (r: Value)
    ensures v.List? <==> r.List?
    ensures v.Tuple? <==> r.Tuple?
    ensures (v.List? || v.Tuple?) ==> |r.elems| == |v.elems|
    ensures !(v.Dict? && BeneFamily(v.kind)) && !v.List? && !v.Tuple? ==> r == v
    decreases v, 3
  {
    match v
    case Dict(k, _) => if BeneFamily(k) then ToDict(v) else v
    case List(xs) => List(PlainElems(v, 0))
    case Tuple(xs) => Tuple(PlainElems(v, 0))
    case _ => v
  }

  /** The rebuilt elements of a list or tuple from `i` on. */
  function PlainElems(v: Value, i: nat): (r: seq<Value>)
    requires (v.List? || v.Tuple?) && i <= |v.elems|
    ensures |r| == |v.elems| - i
    decreases v, 0, |v.elems| - i
  {
    if i == |v.elems| then [] else [PlainElem(v.elems[i])] + PlainElems(v, i + 1)
  }

  /** One element: a BeneDict is converted, anything else (a plain dict or
      a nested list included) is kept. */
  function PlainElem(x: Value): (r: Value)
    ensures !(x.Dict? && BeneFamily(x.kind)) ==> r == x
    decreases x, 3
  {
    if x.Dict? && BeneFamily(x.kind) then ToDict(x) else x
  }

  // ---- What the conversion keeps -------------------------------------------

  /** The entries of the result, position by position. */
  lemma {:induction false} PlainEntriesAt(d: Value, i: nat)
    requires d.Dict? && i <= |d.entries|
    ensures forall j :: i <= j < |d.entries| ==>
              PlainEntries(d, i)[j - i] == Entry(d.entries[j].key, PlainValue(d.entries[j].val))
    decreases |d.entries| - i
  {
    if i < |d.entries| {
      PlainEntriesAt(d, i + 1);
      var r := PlainEntries(d, i);
      forall j | i + 1 <= j < |d.entries|
        ensures r[j - i] == Entry(d.entries[j].key, PlainValue(d.entries[j].val))
      {
        assert r[j - i] == PlainEntries(d, i + 1)[j - (i + 1)];
      }
    }
  }

  /** The elements of a rebuilt list or tuple, position by position. */
  lemma {:induction false} PlainElemsAt(v: Value, i: nat)
    requires (v.List? || v.Tuple?) && i <= |v.elems|
    ensures forall j :: i <= j < |v.elems| ==> PlainElems(v, i)[j - i] == PlainElem(v.elems[j])
    decreases |v.elems| - i
  {
    if i < |v.elems| {
      PlainElemsAt(v, i + 1);
      var r := PlainElems(v, i);
      forall j | i + 1 <= j < |v.elems| ensures r[j - i] == PlainElem(v.elems[j]) {
        assert r[j - i] == PlainElems(v, i + 1)[j - (i + 1)];
      }
    }
  }

  /** Each entry of the result is the entry of `d` at the same position,
      with its value converted. */
  lemma ToDictAt(d: Value)
    requires d.Dict?
    ensures forall j :: 0 <= j < |d.entries| ==>
              ToDict(d).entries[j] == Entry(d.entries[j].key, PlainValue(d.entries[j].val))
  {
    PlainEntriesAt(d, 0);
  }

  /** The conversion keeps the keys and their order. */
  lemma ToDictKeys(d: Value)
    requires d.Dict?
    ensures KeysOf(ToDict(d).entries) == KeysOf(d.entries)
  {
    ToDictAt(d);
  }

  /** Looking a key up in the result is looking it up in `d` and converting
      the value found. */
  lemma ToDictGet(d: Value, k: Key)
    requires d.Dict?
    ensures Get(ToDict(d).entries, k) == match Get(d.entries, k)
                                         case None => None
                                         case Some(v) => Some(PlainValue(v))
  {
    ToDictAt(d);
    ToDictFind(d.entries, ToDict(d).entries, k);
  }

  lemma {:induction false} ToDictFind(es: seq<Entry>, ps: seq<Entry>, k: Key)
    requires |ps| == |es|
    requires forall j :: 0 <= j < |es| ==> ps[j] == Entry(es[j].key, PlainValue(es[j].val))
    ensures Find(ps, k) == Find(es, k)
  {
    if es != [] {
      assert ps[0].key == es[0].key;
      ToDictFind(es[1..], ps[1..], k);
    }
  }

  /** A list element is converted exactly when it is a BeneDict. */
  lemma PlainValueElems(v: Value)
    requires v.List? || v.Tuple?
    ensures forall j :: 0 <= j < |v.elems| ==> PlainValue(v).elems[j] == PlainElem(v.elems[j])
  {
    PlainElemsAt(v, 0);
  }

  // ---- No wrapper is left ----------------------------------------------------

  /** A tree in which every dict the conversion visits (dict values, and
      dict elements of lists and tuples) is a plain dict. */
  predicate PlainTree(v: Value)
    decreases v, 1
  {
    match v
    case Dict(k, es) => k == Plain && forall i :: 0 <= i < |es| ==> PlainTree(es[i].val)
    case List(xs) => forall i :: 0 <= i < |xs| ==> (xs[i].Dict? ==> PlainTree(xs[i]))
    case Tuple(xs) => forall i :: 0 <= i < |xs| ==> (xs[i].Dict? ==> PlainTree(xs[i]))
    case _ => true
  }

  /** Converting what a BeneDict (or a Config) stores leaves no wrapper at
      any position the conversion visits. */
  lemma {:induction false} ToDictPlain(kind: Kind, d: Value)
    requires BeneFamily(kind) && NormalDict(kind, d)
    ensures PlainTree(ToDict(d))
    decreases d, 0
  {
    ToDictAt(d);
    forall j | 0 <= j < |d.entries| ensures PlainTree(ToDict(d).entries[j].val) {
      PlainValuePlain(kind, d.entries[j].val);
    }
  }

  lemma {:induction false} PlainValuePlain(kind: Kind, v: Value)
    requires BeneFamily(kind) && NormalValue(kind, v)
    ensures PlainTree(PlainValue(v))
    decreases v, 1
  {
    match v
    case Dict(_, _) =>
      ToDictPlain(kind, v);
    case List(xs) =>
      PlainValueElems(v);
      forall j | 0 <= j < |xs| && PlainValue(v).elems[j].Dict? ensures PlainTree(PlainValue(v).elems[j]) {
        if xs[j].Dict? {
          ToDictPlain(kind, xs[j]);
        }
      }
    case _ =>
  }

  /** Converting a plain tree changes nothing: the conversion is idempotent
      on what it returns. */
  lemma {:induction false} ToDictIdentity(d: Value)
    requires PlainTree(d) && d.Dict?
    ensures ToDict(d) == d
    decreases d, 0
  {
    ToDictAt(d);
    forall j | 0 <= j < |d.entries| ensures PlainValue(d.entries[j].val) == d.entries[j].val {
      PlainValueIdentity(d.entries[j].val);
    }
    assert ToDict(d).entries == d.entries;
  }

  lemma {:induction false} PlainValueIdentity(v: Value)
    requires PlainTree(v)
    ensures PlainValue(v) == v
    decreases v, 1
  {
    if v.List? || v.Tuple? {
      PlainValueElems(v);
      assert PlainValue(v).elems == v.elems;
    }
  }

  // ---- Wrapping the result again gives the instance back ---------------------

  /** `BeneDict(d.to_dict())` (or `Config(...)`) rebuilds `d`: the conversion
      is undone by the constructor of the class it stripped. */
  lemma {:induction false} ToDictRoundTrip(kind: Kind, d: Value)
    requires BeneFamily(kind) && NormalDict(kind, d)
    ensures Construct(kind, ToDict(d)) == Ok(d.entries)
    decreases d, 0
  {
    var p := ToDict(d);
    ToDictAt(d);
    ToDictKeys(d);
    forall j | 0 <= j < |p.entries| ensures Normalize.Normalize(kind, p.entries[j].val) == Ok(d.entries[j].val) {
      PlainValueRoundTrip(kind, d.entries[j].val);
    }
    forall j | 0 <= j < |p.entries| ensures !EntryFails(kind, p.entries[j]) {
      assert KeyAllowed(kind, d.entries[j].key);
    }
    ConstructFails(kind, p);
    ConstructContents(kind, p);
    forall j | 0 <= j < |d.entries| ensures Get(Construct(kind, p).value, d.entries[j].key) == Some(d.entries[j].val) {
      assert p.entries[j].key == d.entries[j].key;
    }
    EntriesExt(d.entries, Construct(kind, p).value);
  }

  /** The setter of `kind` undoes the conversion of a value it stored. */
  lemma {:induction false} PlainValueRoundTrip(kind: Kind, v: Value)
    requires BeneFamily(kind) && NormalValue(kind, v)
    ensures Normalize.Normalize(kind, PlainValue(v)) == Ok(v)
    decreases v, 1
  {
    if v.Dict? {
      ToDictRoundTrip(kind, v);
    } else if v.List? {
      ListRoundTrip(kind, v);
    }
  }

  lemma {:induction false} ListRoundTrip(kind: Kind, v: Value)
    requires BeneFamily(kind) && v.List? && NormalValue(kind, v)
    ensures NormalizeElems(kind, PlainValue(v), 0) == Ok(v.elems)
    decreases v, 0
  {
    var w := PlainValue(v);
    PlainValueElems(v);
    forall j | 0 <= j < |v.elems| ensures ElemImage(kind, w.elems[j], v.elems[j]) {
      if v.elems[j].Dict? {
        assert NormalDict(kind, v.elems[j]);
        ToDictRoundTrip(kind, v.elems[j]);
      }
    }
    ElemsFromImages(kind, w, v.elems, 0);
    assert v.elems[0..] == v.elems;
  }

  /** Rebuilding the elements of `w` from `i` on gives `zs[i..]` when each
      element of `zs` is the image of the element of `w` at the same
      position. */
  lemma {:induction false} ElemsFromImages(kind: Kind, w: Value, zs: seq<Value>, i: nat)
    requires Wrapping(kind) && (w.List? || w.Tuple?) && |zs| == |w.elems| && i <= |w.elems|
    requires forall j :: 0 <= j < |w.elems| ==> ElemImage(kind, w.elems[j], zs[j])
    ensures NormalizeElems(kind, w, i) == Ok(zs[i..])
    decreases |w.elems| - i
  {
    if i < |w.elems| {
      ElemsFromImages(kind, w, zs, i + 1);
      assert ElemImage(kind, w.elems[i], zs[i]);
      SliceCons(zs, i);
      if w.elems[i].Dict? {
        assert NormalizeElems(kind, w, i) == Ok([Dict(kind, Construct(kind, w.elems[i]).value)] + zs[i + 1..]);
      } else {
        assert NormalizeElems(kind, w, i) == Ok([w.elems[i]] + zs[i + 1..]);
      }
    } else {
      assert zs[i..] == [];
    }
  }

  // ---- Converting what the constructor stored gives the input back ---------

  /** A plain tree that a BeneDict stores and `to_dict` gives back as it
      was: plain dicts with distinct keys a BeneDict may take as attribute
      names, no tuple as a dict value (the setter turns it into a list),
      and lists whose dict elements are such trees. */
  predicate StorableDict(d: Value)
    decreases d, 0
  {
    d.Dict? && d.kind == Plain && DistinctKeys(d.entries)
    && (forall i :: 0 <= i < |d.entries| ==> KeyAllowed(Bene, d.entries[i].key))
    && (forall i :: 0 <= i < |d.entries| ==> StorableValue(d.entries[i].val))
  }

  predicate StorableValue(v: Value)
    decreases v, 1
  {
    match v
    case Dict(_, _) => StorableDict(v)
    case List(xs) => forall i :: 0 <= i < |xs| ==> (xs[i].Dict? ==> StorableDict(xs[i]))
    case Tuple(_) => false
    case _ => true
  }

  /** `BeneDict(m).to_dict() == m`: the constructor takes such a tree and
      the conversion undoes it. */
  lemma {:induction false} ConstructToDict(m: Value)
    requires StorableDict(m)
    ensures Construct(Bene, m).Ok?
    ensures ToDict(Dict(Bene, Construct(Bene, m).value)) == m
    decreases m, 0
  {
    forall j | 0 <= j < |m.entries|
      ensures Normalize.Normalize(Bene, m.entries[j].val).Ok?
      ensures PlainValue(Normalize.Normalize(Bene, m.entries[j].val).value) == m.entries[j].val
    {
      NormalizeToDict(m.entries[j].val);
    }
    forall j | 0 <= j < |m.entries| ensures !EntryFails(Bene, m.entries[j]) {
    }
    ConstructFails(Bene, m);
    ConstructContents(Bene, m);
    var d := Dict(Bene, Construct(Bene, m).value);
    var p := ToDict(d);
    ToDictKeys(d);
    forall j | 0 <= j < |m.entries| ensures Get(p.entries, m.entries[j].key) == Some(m.entries[j].val) {
      ToDictGet(d, m.entries[j].key);
    }
    EntriesExt(m.entries, p.entries);
  }

  /** The setter stores such a value, and the conversion gives it back. */
  lemma {:induction false} NormalizeToDict(v: Value)
    requires StorableValue(v)
    ensures Normalize.Normalize(Bene, v).Ok?
    ensures PlainValue(Normalize.Normalize(Bene, v).value) == v
    decreases v, 1
  {
    match v
    case Dict(_, _) =>
      ConstructToDict(v);
    case List(xs) =>
      forall j | 0 <= j < |xs| && xs[j].Dict? ensures Construct(Bene, xs[j]).Ok? {
        ConstructToDict(xs[j]);
      }
      ElemsFail(Bene, v, 0);
      ElemsContents(Bene, v);
      var w := Normalize.Normalize(Bene, v).value;
      PlainValueElems(w);
      forall j | 0 <= j < |xs| ensures PlainValue(w).elems[j] == xs[j] {
        if xs[j].Dict? {
          ConstructToDict(xs[j]);
        }
      }
      assert PlainValue(w).elems == xs;
    case _ =>
  }
}
