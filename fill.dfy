/** `_fill_default_config` (`benedict/config.py`): the walk of a default
    tree over a config tree, entry by entry in the order of the defaults.
    Missing keys are copied from the defaults unless a placeholder is
    required there; present keys are checked against placeholders and
    shapes; two sub-dicts are merged recursively; the user's value wins
    otherwise. The config is a dict of any kind; storing into it goes
    through the setter of its class. */
module DefaultFill {
  import opened Values
  import opened Strings
  import opened Normalize
  import opened Placeholders

  // ---- Storing ------------------------------------------------------------

  /** The value `config[key] = v` leaves under `key`: a plain dict stores
      `v`, the containers store what their setter makes of it. */
  function Stored(kind: Kind, v: Value): Result<Value> {
    if kind == Plain then Ok(v) else Normalize.Normalize(kind, v)
  }

  /** `config[key] = v` */
  function Store(cfg: Value, key: Key, v: Value): (r: Result<Value>)
    requires cfg.Dict?
    ensures r.Ok? ==> r.value.Dict? && r.value.kind == cfg.kind
    ensures r.Err? <==> Wrapping(cfg.kind) && EntryFails(cfg.kind, Entry(key, v))
    ensures r.Ok? ==> Stored(cfg.kind, v).Ok? && r.value.entries == Put(cfg.entries, key, Stored(cfg.kind, v).value)
  {
    if cfg.kind == Plain then Ok(Dict(Plain, Put(cfg.entries, key, v)))
    else
      SetEntryMeaning(cfg.kind, cfg.entries, key, v);
      var es :- SetEntry(cfg.kind, cfg.entries, key, v);
      Ok(Dict(cfg.kind, es))
  }

  // ---- Messages -----------------------------------------------------------

  /** `'inherited {trace}: "{value}" must match default "{default}"'` */
  function MismatchError(trace: seq<Key>, key: Key, v: Value, dv: Value): Error
    requires v.Str? && dv.Str?
  {
    match TraceKey(trace, key)
    case Err(e) => e
    case Ok(t) => ConfigError("inherited " + t + ": \"" + v.s + "\" must match default \"" + dv.s + "\"")
  }

  /** `'Sub-dict under key "{trace}" contains a required config: {default}.'` */
  function SubDictError(trace: seq<Key>, key: Key, dv: Value): Error {
    match TraceKey(trace, key)
    case Err(e) => e
    case Ok(t) => ConfigErrorShowing("Sub-dict under key \"" + t + "\" contains a required config: ", dv, ".")
  }

  /** The two shape errors: the trace followed by what the value must be. */
  function ShapeError(trace: seq<Key>, key: Key, what: string): Error {
    match TraceKey(trace, key)
    case Err(e) => e
    case Ok(t) => ConfigError(t + what)
  }

  const MustBeSingleton: string := "must be a singleton instead of a sub-dict"
  const MustBeSubDict: string := "must have a sub-dict instead of a singleton"

  // ---- The walk -----------------------------------------------------------

  /** `_fill_default_config(cfg, d, trace)`, the filled config:
      `d.items()` (which raises on a container whose `items` is hidden),
      then the walk over the entries. */
  function Fill(cfg: Value, d: Value, trace: seq<Key>): (r: Result<Value>)
    requires cfg.Dict? && d.Dict?
    ensures r.Ok? ==> r.value.Dict? && r.value.kind == cfg.kind
    decreases d, 1
  {
    if ItemsShadowed(d) then Err(ItemsError(d)) else FillFrom(cfg, d, trace, 0)
  }

  /** The walk from the default entry at `i` on, `cur` being the config as
      the earlier entries left it. */
  function FillFrom(cur: Value, d: Value, trace: seq<Key>, i: nat): (r: Result<Value>)
    requires cur.Dict? && d.Dict? && i <= |d.entries|
    ensures r.Ok? ==> r.value.Dict? && r.value.kind == cur.kind
    decreases d, 0, |d.entries| - i
  {
    if i == |d.entries| then Ok(cur)
    else
      var cur' :- FillKey(cur, d.entries[i].key, d.entries[i].val, trace);
      FillFrom(cur', d, trace, i + 1)
  }

  /** The loop body for the default entry `key: dv`. */
  function FillKey(cur: Value, key: Key, dv: Value, trace: seq<Key>): (r: Result<Value>)
    requires cur.Dict?
    ensures r.Ok? ==> r.value.Dict? && r.value.kind == cur.kind
    decreases dv, 3
  {
    var dec :- Decide(Get(cur.entries, key), key, dv, trace);
    match dec
    case None => Ok(cur)
    case Some(x) => Store(cur, key, x)
  }

  /** The decision tree of the loop body, given what the config holds under
      `key`: an error, nothing to store (`None`), or the value to store
      (`Some(x)`, for `config[key] = x`). */
  function Decide(held: Option<Value>, key: Key, dv: Value, trace: seq<Key>): (r: Result<Option<Value>>)
    decreases dv, 2
  {
    var req :- ReqTypeCheck(dv);
    match held
    case None =>
      if req.Some? then Err(ReqError(trace, key, req.value, "Required entry missing:"))
      else if dv.Dict? then
        var sub :- HasReq(dv);
        if sub then Err(SubDictError(trace, key, dv)) else Ok(Some(dv))
      else Ok(Some(dv))
    case Some(v) =>
      if req.Some? then
        var vreq :- IsReq(v);
        if vreq then
          if v != dv then Err(MismatchError(trace, key, v, dv)) else Ok(None)
        else if !Accepts(req.value, v) then Err(ReqError(trace, key, req.value, "Wrong type:"))
        else Ok(None)
      else if v.Dict? && !dv.Dict? then Err(ShapeError(trace, key, MustBeSingleton))
      else if dv.Dict? then
        if !v.Dict? then Err(ShapeError(trace, key, MustBeSubDict))
        else
          var sub :- Fill(v, dv, trace + [key]);
          Ok(Some(sub))
      else Ok(None)
  }

  /** The imperative walk: the loop over the default entries, assigning
      into the config as it goes. */
  method FillDefaultConfig(cfg: Value, d: Value, trace: seq<Key>) returns (r: Result<Value>)
    requires cfg.Dict? && d.Dict?
    ensures r == Fill(cfg, d, trace)
    decreases d, 0
  {
    if ItemsShadowed(d) {
      return Err(ItemsError(d));
    }
    var cur := cfg;
    var i := 0;
    while i < |d.entries|
      invariant 0 <= i <= |d.entries| && cur.Dict? && cur.kind == cfg.kind
      invariant Fill(cfg, d, trace) == FillFrom(cur, d, trace, i)
    {
      FillFromCases(cur, d, trace, i);
      var next := FillKeyStep(cur, d.entries[i].key, d.entries[i].val, trace);
      if next.Err? {
        return Err(next.error);
      }
      cur := next.value;
      i := i + 1;
    }
    r := Ok(cur);
  }

  /** The loop body for the default entry `key: dv`: decide, then store. */
  method FillKeyStep(cur: Value, key: Key, dv: Value, trace: seq<Key>) returns (r: Result<Value>)
    requires cur.Dict?
    ensures r == FillKey(cur, key, dv, trace)
    decreases dv, 2
  {
    var dec := DecideStep(Get(cur.entries, key), key, dv, trace);
    if dec.Err? {
      return Err(dec.error);
    }
    if dec.value.None? {
      return Ok(cur);
    }
    r := Store(cur, key, dec.value.value);
  }

  /** The decision of the loop body for the default entry `key: dv`, given
      what the config holds under `key`; it recurses into a sub-dict. */
  method DecideStep(held: Option<Value>, key: Key, dv: Value, trace: seq<Key>) returns (r: Result<Option<Value>>)
    ensures r == Decide(held, key, dv, trace)
    decreases dv, 1
  {
    var req := ReqTypeCheck(dv);
    if req.Err? {
      return Err(req.error);
    }
    if held.None? {
      if req.value.Some? {
        return Err(ReqError(trace, key, req.value.value, "Required entry missing:"));
      } else if dv.Dict? {
        var sub := HasReq(dv);
        if sub.Err? {
          return Err(sub.error);
        } else if sub.value {
          return Err(SubDictError(trace, key, dv));
        }
      }
      r := Ok(Some(dv));
    } else {
      var v := held.value;
      if req.value.Some? {
        var vreq := IsReq(v);
        if vreq.Err? {
          return Err(vreq.error);
        } else if vreq.value {
          if v != dv {
            return Err(MismatchError(trace, key, v, dv));
          }
        } else if !Accepts(req.value.value, v) {
          return Err(ReqError(trace, key, req.value.value, "Wrong type:"));
        }
        r := Ok(None);
      } else if v.Dict? && !dv.Dict? {
        return Err(ShapeError(trace, key, MustBeSingleton));
      } else if dv.Dict? {
        if !v.Dict? {
          return Err(ShapeError(trace, key, MustBeSubDict));
        }
        var sub := FillDefaultConfig(v, dv, trace + [key]);
        if sub.Err? {
          return Err(sub.error);
        }
        r := Ok(Some(sub.value));
      } else {
        r := Ok(None);
      }
    }
  }

  // ---- Which keys the walk leaves ------------------------------------------

  /** One step stores under `key` only: every other key keeps its value,
      and `key` is appended when it was missing. */
  lemma FillKeyFrame(cur: Value, key: Key, dv: Value, trace: seq<Key>)
    requires cur.Dict? && FillKey(cur, key, dv, trace).Ok?
    ensures var r := FillKey(cur, key, dv, trace).value;
            KeysOf(r.entries) == (if key in KeysOf(cur.entries) then KeysOf(cur.entries) else KeysOf(cur.entries) + [key])
            && (forall k :: k != key ==> Get(r.entries, k) == Get(cur.entries, k))
  {
  }

  /** The keys after one step: `key` is appended when it is new. */
  lemma FillKeyKeys(cur: Value, key: Key, dv: Value, trace: seq<Key>)
    requires cur.Dict? && FillKey(cur, key, dv, trace).Ok?
    ensures KeysOf(FillKey(cur, key, dv, trace).value.entries)
            == if key in KeysOf(cur.entries) then KeysOf(cur.entries) else KeysOf(cur.entries) + [key]
  {
    FillKeyFrame(cur, key, dv, trace);
  }

  /** One step looks only at what the config holds under `key`. */
  lemma FillKeyLocal(c1: Value, c2: Value, key: Key, dv: Value, trace: seq<Key>)
    requires c1.Dict? && c2.Dict? && c1.kind == c2.kind && Get(c1.entries, key) == Get(c2.entries, key)
    ensures FillKey(c1, key, dv, trace).Err? ==> FillKey(c1, key, dv, trace) == FillKey(c2, key, dv, trace)
    ensures FillKey(c1, key, dv, trace).Ok? == FillKey(c2, key, dv, trace).Ok?
    ensures FillKey(c1, key, dv, trace).Ok? ==>
              Get(FillKey(c1, key, dv, trace).value.entries, key) == Get(FillKey(c2, key, dv, trace).value.entries, key)
  {
    var dec := Decide(Get(c1.entries, key), key, dv, trace);
    if dec.Ok? && dec.value.Some? {
      StoreLocalGet(c1, c2, key, dec.value.value);
      assert FillKey(c1, key, dv, trace) == Store(c1, key, dec.value.value);
      assert FillKey(c2, key, dv, trace) == Store(c2, key, dec.value.value);
    }
  }

  /** Storing the same value into two configs of one kind. */
  lemma StoreLocalGet(c1: Value, c2: Value, key: Key, v: Value)
    requires c1.Dict? && c2.Dict? && c1.kind == c2.kind
    ensures Store(c1, key, v).Err? ==> Store(c1, key, v) == Store(c2, key, v)
    ensures Store(c1, key, v).Ok? == Store(c2, key, v).Ok?
    ensures Store(c1, key, v).Ok? ==> Get(Store(c1, key, v).value.entries, key) == Get(Store(c2, key, v).value.entries, key)
  {
    StoreLocal(c1, c2, key, v);
  }

  /** Whether and how storing fails does not depend on the entries. */
  lemma StoreLocal(c1: Value, c2: Value, key: Key, v: Value)
    requires c1.Dict? && c2.Dict? && c1.kind == c2.kind
    ensures Store(c1, key, v).Err? ==> Store(c1, key, v) == Store(c2, key, v)
    ensures Store(c1, key, v).Ok? == Store(c2, key, v).Ok?
  {
    if c1.kind != Plain {
      SetEntryLocal(c1.kind, c1.entries, c2.entries, key, v);
    }
  }

  lemma SetEntryLocal(kind: Kind, es1: seq<Entry>, es2: seq<Entry>, key: Key, v: Value)
    requires Wrapping(kind)
    ensures SetEntry(kind, es1, key, v).Err? ==> SetEntry(kind, es1, key, v) == SetEntry(kind, es2, key, v)
    ensures SetEntry(kind, es1, key, v).Ok? == SetEntry(kind, es2, key, v).Ok?
  {
  }

  /** One step of `FillFrom`. */
  lemma FillFromStep(cur: Value, d: Value, trace: seq<Key>, i: nat)
    requires cur.Dict? && d.Dict? && i < |d.entries|
    ensures var s := FillKey(cur, d.entries[i].key, d.entries[i].val, trace);
            if s.Err? then FillFrom(cur, d, trace, i).Err?
            else FillFrom(cur, d, trace, i) == FillFrom(s.value, d, trace, i + 1)
  {
  }

  /** One step of `FillFrom`, both outcomes spelled out. */
  lemma FillFromCases(cur: Value, d: Value, trace: seq<Key>, i: nat)
    requires cur.Dict? && d.Dict? && i < |d.entries|
    ensures var s := FillKey(cur, d.entries[i].key, d.entries[i].val, trace);
            (s.Err? ==> FillFrom(cur, d, trace, i) == Err(s.error))
            && (s.Ok? ==> FillFrom(cur, d, trace, i) == FillFrom(s.value, d, trace, i + 1))
  {
  }

  /** A failing step ends the walk with its error. */
  lemma FillFromFails(cur: Value, d: Value, trace: seq<Key>, i: nat)
    requires cur.Dict? && d.Dict? && i < |d.entries|
    requires FillKey(cur, d.entries[i].key, d.entries[i].val, trace).Err?
    ensures FillFrom(cur, d, trace, i) == FillKey(cur, d.entries[i].key, d.entries[i].val, trace)
  {
  }

  /** The config after the step at `i` of a walk that succeeds. */
  lemma FillFromNext(cur: Value, d: Value, trace: seq<Key>, i: nat) returns (next: Value)
    requires cur.Dict? && d.Dict? && i < |d.entries| && FillFrom(cur, d, trace, i).Ok?
    ensures next.Dict? && FillFrom(next, d, trace, i + 1) == FillFrom(cur, d, trace, i)
    ensures KeysOf(next.entries)
            == if d.entries[i].key in KeysOf(cur.entries) then KeysOf(cur.entries) else KeysOf(cur.entries) + [d.entries[i].key]
    ensures forall k :: k != d.entries[i].key ==> Get(next.entries, k) == Get(cur.entries, k)
  {
    FillFromCases(cur, d, trace, i);
    next := FillKey(cur, d.entries[i].key, d.entries[i].val, trace).value;
    FillKeyFrame(cur, d.entries[i].key, d.entries[i].val, trace);
  }

  /** Keys outside the remaining defaults keep their values. */
  lemma FillFromFrame(cur: Value, d: Value, trace: seq<Key>, i: nat)
    requires cur.Dict? && d.Dict? && i <= |d.entries| && FillFrom(cur, d, trace, i).Ok?
    ensures var r := FillFrom(cur, d, trace, i).value;
            forall k :: k !in KeysOf(d.entries)[i..] ==> Get(r.entries, k) == Get(cur.entries, k)
  {
    forall k | k !in KeysOf(d.entries)[i..]
      ensures Get(FillFrom(cur, d, trace, i).value.entries, k) == Get(cur.entries, k)
    {
      FillFromFrameAt(cur, d, trace, i, k);
    }
  }

  lemma {:induction false} FillFromFrameAt(cur: Value, d: Value, trace: seq<Key>, i: nat, k: Key)
    requires cur.Dict? && d.Dict? && i <= |d.entries| && FillFrom(cur, d, trace, i).Ok?
    requires k !in KeysOf(d.entries)[i..]
    ensures Get(FillFrom(cur, d, trace, i).value.entries, k) == Get(cur.entries, k)
    decreases |d.entries| - i
  {
    if i < |d.entries| {
      var next := FillFromNext(cur, d, trace, i);
      SliceMember(KeysOf(d.entries), i, k);
      FillFromFrameAt(next, d, trace, i + 1, k);
    }
  }

  /** The walk appends the missing default keys, in the order of the
      defaults, after the keys the config already had. */
  lemma {:induction false} FillFromKeys(cur: Value, d: Value, trace: seq<Key>, i: nat)
    requires cur.Dict? && d.Dict? && i <= |d.entries| && DistinctKeys(d.entries)
    requires FillFrom(cur, d, trace, i).Ok?
    ensures KeysOf(FillFrom(cur, d, trace, i).value.entries)
            == KeysOf(cur.entries) + NewKeys(KeysOf(cur.entries), KeysOf(d.entries)[i..])
    decreases |d.entries| - i
  {
    var ks := KeysOf(d.entries);
    if i == |d.entries| {
      assert ks[i..] == [];
    } else {
      var next := FillFromNext(cur, d, trace, i);
      FillFromKeys(next, d, trace, i + 1);
      KeysAfterStep(KeysOf(FillFrom(cur, d, trace, i).value.entries), KeysOf(cur.entries), KeysOf(next.entries), ks, i);
    }
  }


  /** The walk from `i` on, over a config that agrees with `cfg` on the
      remaining default keys, fails exactly when one of the remaining steps
      fails on `cfg` itself, and otherwise leaves under each remaining key
      what that step leaves on `cfg`. */
  lemma {:induction false} FillFromSteps(cfg: Value, cur: Value, d: Value, trace: seq<Key>, i: nat)
    requires cfg.Dict? && cur.Dict? && d.Dict? && i <= |d.entries| && cur.kind == cfg.kind
    requires DistinctKeys(d.entries)
    requires forall j :: i <= j < |d.entries| ==> Get(cur.entries, d.entries[j].key) == Get(cfg.entries, d.entries[j].key)
    ensures FillFrom(cur, d, trace, i).Err?
            <==> exists j :: i <= j < |d.entries| && FillKey(cfg, d.entries[j].key, d.entries[j].val, trace).Err?
    ensures FillFrom(cur, d, trace, i).Ok? ==>
              forall j :: i <= j < |d.entries| ==>
                FillKey(cfg, d.entries[j].key, d.entries[j].val, trace).Ok?
                && Get(FillFrom(cur, d, trace, i).value.entries, d.entries[j].key)
                   == Get(FillKey(cfg, d.entries[j].key, d.entries[j].val, trace).value.entries, d.entries[j].key)
    decreases |d.entries| - i
  {
    if i < |d.entries| {
      var key := d.entries[i].key;
      var dv := d.entries[i].val;
      FillFromStep(cur, d, trace, i);
      FillKeyLocal(cur, cfg, key, dv, trace);
      var s := FillKey(cur, key, dv, trace);
      if s.Ok? {
        var next := s.value;
        FillKeyFrame(cur, key, dv, trace);
        StepsAgree(cfg, cur, next, d, i);
        FillFromSteps(cfg, next, d, trace, i + 1);
        if FillFrom(cur, d, trace, i).Ok? {
          FillFromFrame(next, d, trace, i + 1);
          KeyNotLater(d, i);
        }
      }
    }
  }

  /** With distinct default keys, the key at `i` is not among the later ones. */
  lemma KeyNotLater(d: Value, i: nat)
    requires d.Dict? && i < |d.entries| && DistinctKeys(d.entries)
    ensures d.entries[i].key !in KeysOf(d.entries)[i + 1..]
  {
    var ks := KeysOf(d.entries);
    forall j | i + 1 <= j < |ks| ensures ks[j] != ks[i] {
      DistinctAt(ks, j, i);
    }
  }

  /** After the step at `i`, the config still agrees with `cfg` on the
      later default keys. */
  lemma StepsAgree(cfg: Value, cur: Value, next: Value, d: Value, i: nat)
    requires cfg.Dict? && cur.Dict? && next.Dict? && d.Dict? && i < |d.entries| && DistinctKeys(d.entries)
    requires forall j :: i <= j < |d.entries| ==> Get(cur.entries, d.entries[j].key) == Get(cfg.entries, d.entries[j].key)
    requires forall k :: k != d.entries[i].key ==> Get(next.entries, k) == Get(cur.entries, k)
    ensures forall j :: i + 1 <= j < |d.entries| ==> Get(next.entries, d.entries[j].key) == Get(cfg.entries, d.entries[j].key)
  {
    var ks := KeysOf(d.entries);
    forall j | i + 1 <= j < |d.entries|
      ensures Get(next.entries, d.entries[j].key) == Get(cfg.entries, d.entries[j].key)
    {
      DistinctAt(ks, j, i);
    }
  }

  // ---- What the walk promises ----------------------------------------------

  /** On success the config keeps its keys in order and gains the missing
      default keys after them: its key set is the old keys plus the default
      keys. */
  lemma FillKeys(cfg: Value, d: Value, trace: seq<Key>)
    requires cfg.Dict? && d.Dict? && DistinctKeys(d.entries) && Fill(cfg, d, trace).Ok?
    ensures var ks := KeysOf(Fill(cfg, d, trace).value.entries);
            ks == KeysOf(cfg.entries) + NewKeys(KeysOf(cfg.entries), KeysOf(d.entries))
            && forall k :: k in ks <==> k in KeysOf(cfg.entries) || k in KeysOf(d.entries)
  {
    FillFromKeys(cfg, d, trace, 0);
    assert KeysOf(d.entries)[0..] == KeysOf(d.entries);
  }

  /** Config keys that the defaults do not mention are left unchanged. */
  lemma FillKeepsOthers(cfg: Value, d: Value, trace: seq<Key>, k: Key)
    requires cfg.Dict? && d.Dict? && Fill(cfg, d, trace).Ok? && k !in KeysOf(d.entries)
    ensures Get(Fill(cfg, d, trace).value.entries, k) == Get(cfg.entries, k)
  {
    FillFromFrame(cfg, d, trace, 0);
    assert KeysOf(d.entries)[0..] == KeysOf(d.entries);
  }

  /** The walk fails exactly when `d.items()` raises or the step for some
      default entry fails on the config as given, and otherwise leaves under
      each default key what its step leaves there: the steps for distinct
      keys do not interfere. */
  lemma FillBySteps(cfg: Value, d: Value, trace: seq<Key>)
    requires cfg.Dict? && d.Dict? && DistinctKeys(d.entries)
    ensures Fill(cfg, d, trace).Err?
            <==> ItemsShadowed(d)
                 || exists j :: 0 <= j < |d.entries| && FillKey(cfg, d.entries[j].key, d.entries[j].val, trace).Err?
    ensures Fill(cfg, d, trace).Ok? ==>
              forall j :: 0 <= j < |d.entries| ==>
                FillKey(cfg, d.entries[j].key, d.entries[j].val, trace).Ok?
                && Get(Fill(cfg, d, trace).value.entries, d.entries[j].key)
                   == Get(FillKey(cfg, d.entries[j].key, d.entries[j].val, trace).value.entries, d.entries[j].key)
  {
    FillFromSteps(cfg, cfg, d, trace, 0);
  }

  /** The error of a failing walk is the error of the first default entry
      whose step fails on the config as given. */
  lemma {:induction false} FillFromFirstError(cfg: Value, cur: Value, d: Value, trace: seq<Key>, i: nat) returns (j: nat)
    requires cfg.Dict? && cur.Dict? && d.Dict? && i <= |d.entries| && cur.kind == cfg.kind
    requires DistinctKeys(d.entries) && FillFrom(cur, d, trace, i).Err?
    requires forall j :: i <= j < |d.entries| ==> Get(cur.entries, d.entries[j].key) == Get(cfg.entries, d.entries[j].key)
    ensures i <= j < |d.entries|
    ensures FillFrom(cur, d, trace, i) == FillKey(cfg, d.entries[j].key, d.entries[j].val, trace)
    ensures forall j' :: i <= j' < j ==> FillKey(cfg, d.entries[j'].key, d.entries[j'].val, trace).Ok?
    decreases |d.entries| - i
  {
    var key := d.entries[i].key;
    var dv := d.entries[i].val;
    FillKeyLocal(cur, cfg, key, dv, trace);
    var s := FillKey(cur, key, dv, trace);
    if s.Err? {
      j := i;
      FillFromFails(cur, d, trace, i);
    } else {
      FillFromStep(cur, d, trace, i);
      FillKeyFrame(cur, key, dv, trace);
      StepsAgree(cfg, cur, s.value, d, i);
      j := FillFromFirstError(cfg, s.value, d, trace, i + 1);
    }
  }

  /** The error of a failing walk is the one `d.items()` raises, or else
      the error of the first default entry whose step fails on the config
      as given. */
  lemma FillFirstError(cfg: Value, d: Value, trace: seq<Key>) returns (j: nat)
    requires cfg.Dict? && d.Dict? && DistinctKeys(d.entries) && Fill(cfg, d, trace).Err?
    ensures ItemsShadowed(d) ==> Fill(cfg, d, trace) == Err(ItemsError(d))
    ensures !ItemsShadowed(d) ==>
              j < |d.entries| && Fill(cfg, d, trace) == FillKey(cfg, d.entries[j].key, d.entries[j].val, trace)
              && Reaches(cfg, d, trace, j)
  {
    if ItemsShadowed(d) {
      j := 0;
    } else {
      j := FillFromFirstError(cfg, cfg, d, trace, 0);
    }
  }

  /** The walk reaches the default entry at `j`: `d.items()` does not raise
      and the steps before `j` pass on the config as given. */
  predicate Reaches(cfg: Value, d: Value, trace: seq<Key>, j: nat)
    requires cfg.Dict? && d.Dict? && j <= |d.entries|
  {
    !ItemsShadowed(d) && forall j' :: 0 <= j' < j ==> FillKey(cfg, d.entries[j'].key, d.entries[j'].val, trace).Ok?
  }

  /** A step that fails where the walk reaches it gives the walk's error. */
  lemma FillFailsAt(cfg: Value, d: Value, trace: seq<Key>, j: nat)
    requires cfg.Dict? && d.Dict? && DistinctKeys(d.entries) && j < |d.entries| && Reaches(cfg, d, trace, j)
    requires FillKey(cfg, d.entries[j].key, d.entries[j].val, trace).Err?
    ensures Fill(cfg, d, trace) == FillKey(cfg, d.entries[j].key, d.entries[j].val, trace)
  {
    FillBySteps(cfg, d, trace);
    var first := FillFirstError(cfg, d, trace);
    assert first == j;
  }

  /** The step for a key missing from the config. */
  lemma MissingStep(cfg: Value, key: Key, dv: Value, trace: seq<Key>)
    requires cfg.Dict? && key !in KeysOf(cfg.entries)
    ensures ReqTypeCheck(dv).Ok? && ReqTypeCheck(dv).value.Some? ==>
              FillKey(cfg, key, dv, trace) == Err(ReqError(trace, key, ReqTypeCheck(dv).value.value, "Required entry missing:"))
    ensures dv.Dict? && HasReq(dv) == Ok(true) ==> FillKey(cfg, key, dv, trace) == Err(SubDictError(trace, key, dv))
    ensures FillKey(cfg, key, dv, trace).Ok? ==>
              IsReq(dv) == Ok(false) && (dv.Dict? ==> HasReq(dv) == Ok(false))
              && Stored(cfg.kind, dv).Ok? && Get(FillKey(cfg, key, dv, trace).value.entries, key) == Some(Stored(cfg.kind, dv).value)
  {
    assert Get(cfg.entries, key) == None;
    DecideMissing(key, dv, trace);
    var dec := Decide(None, key, dv, trace);
    if dec.Ok? {
      assert FillKey(cfg, key, dv, trace) == Store(cfg, key, dv);
    }
  }

  /** The decision for a key the config does not hold. */
  lemma DecideMissing(key: Key, dv: Value, trace: seq<Key>)
    ensures ReqTypeCheck(dv).Ok? && ReqTypeCheck(dv).value.Some? ==>
              Decide(None, key, dv, trace) == Err(ReqError(trace, key, ReqTypeCheck(dv).value.value, "Required entry missing:"))
    ensures dv.Dict? && HasReq(dv) == Ok(true) ==> Decide(None, key, dv, trace) == Err(SubDictError(trace, key, dv))
    ensures Decide(None, key, dv, trace).Ok? ==>
              IsReq(dv) == Ok(false) && (dv.Dict? ==> HasReq(dv) == Ok(false))
              && Decide(None, key, dv, trace) == Ok(Some(dv))
  {
  }

  /** A default key missing from the config: a placeholder default, or a
      sub-dict default holding a placeholder, makes the walk fail (and when
      the entries before it pass, with the `Required entry missing:` error
      naming the dotted path); on success the default is stored. */
  lemma FillMissing(cfg: Value, d: Value, trace: seq<Key>, j: nat)
    requires cfg.Dict? && d.Dict? && DistinctKeys(d.entries) && j < |d.entries|
    requires d.entries[j].key !in KeysOf(cfg.entries)
    ensures var dv := d.entries[j].val;
            ReqTypeCheck(dv).Ok? && ReqTypeCheck(dv).value.Some? ==> Fill(cfg, d, trace).Err?
    ensures var dv := d.entries[j].val;
            dv.Dict? && HasReq(dv) == Ok(true) ==> Fill(cfg, d, trace).Err?
    ensures var (key, dv) := (d.entries[j].key, d.entries[j].val);
            ReqTypeCheck(dv).Ok? && ReqTypeCheck(dv).value.Some? && Reaches(cfg, d, trace, j)
            ==> Fill(cfg, d, trace) == Err(ReqError(trace, key, ReqTypeCheck(dv).value.value, "Required entry missing:"))
    ensures var (key, dv) := (d.entries[j].key, d.entries[j].val);
            dv.Dict? && HasReq(dv) == Ok(true) && Reaches(cfg, d, trace, j)
            ==> Fill(cfg, d, trace) == Err(SubDictError(trace, key, dv))
    ensures var (key, dv) := (d.entries[j].key, d.entries[j].val);
            Fill(cfg, d, trace).Ok? ==>
              IsReq(dv) == Ok(false) && (dv.Dict? ==> HasReq(dv) == Ok(false))
              && Stored(cfg.kind, dv).Ok? && Get(Fill(cfg, d, trace).value.entries, key) == Some(Stored(cfg.kind, dv).value)
  {
    var key := d.entries[j].key;
    var dv := d.entries[j].val;
    FillBySteps(cfg, d, trace);
    MissingStep(cfg, key, dv, trace);
    if FillKey(cfg, key, dv, trace).Err? && Reaches(cfg, d, trace, j) {
      FillFailsAt(cfg, d, trace, j);
    }
  }

  /** The step for a key the config holds. */
  lemma PresentStep(cfg: Value, key: Key, dv: Value, trace: seq<Key>)
    requires cfg.Dict? && key in KeysOf(cfg.entries)
    ensures var v := Get(cfg.entries, key).value;
            var req := ReqTypeCheck(dv);
            var s := FillKey(cfg, key, dv, trace);
            (req.Ok? && req.value.Some? ==>
               (IsReq(v).Err? ==> s == Err(EmptyEnum))
               && (IsReq(v) == Ok(true) && v != dv ==> s == Err(MismatchError(trace, key, v, dv)))
               && (IsReq(v) == Ok(false) && !Accepts(req.value.value, v) ==> s == Err(ReqError(trace, key, req.value.value, "Wrong type:"))))
            && (req == Ok(None) ==>
                  (v.Dict? && !dv.Dict? ==> s == Err(ShapeError(trace, key, MustBeSingleton)))
                  && (!v.Dict? && dv.Dict? ==> s == Err(ShapeError(trace, key, MustBeSubDict)))
                  && (v.Dict? && dv.Dict? && Fill(v, dv, trace + [key]).Err? ==> s == Err(Fill(v, dv, trace + [key]).error)))
  {
    assert Get(cfg.entries, key).Some?;
  }

  /** A present key under a placeholder default: a placeholder value must be
      the default string itself, any other value must pass the default's
      check, or the walk fails, and where the walk reaches the key with the
      error the check raises; on success the value is left as it was. */
  lemma FillPresentRequired(cfg: Value, d: Value, trace: seq<Key>, j: nat)
    requires cfg.Dict? && d.Dict? && DistinctKeys(d.entries) && j < |d.entries|
    requires d.entries[j].key in KeysOf(cfg.entries)
    requires ReqTypeCheck(d.entries[j].val).Ok? && ReqTypeCheck(d.entries[j].val).value.Some?
    ensures var (key, dv) := (d.entries[j].key, d.entries[j].val);
            var v := Get(cfg.entries, key).value;
            (IsReq(v) == Ok(true) && v != dv ==> Fill(cfg, d, trace).Err?)
            && (IsReq(v) == Ok(false) && !Accepts(ReqTypeCheck(dv).value.value, v) ==> Fill(cfg, d, trace).Err?)
    ensures var (key, dv) := (d.entries[j].key, d.entries[j].val);
            var v := Get(cfg.entries, key).value;
            var rt := ReqTypeCheck(dv).value.value;
            Reaches(cfg, d, trace, j) ==>
              (IsReq(v).Err? ==> Fill(cfg, d, trace) == Err(EmptyEnum))
              && (IsReq(v) == Ok(true) && v != dv ==> Fill(cfg, d, trace) == Err(MismatchError(trace, key, v, dv)))
              && (IsReq(v) == Ok(false) && !Accepts(rt, v) ==> Fill(cfg, d, trace) == Err(ReqError(trace, key, rt, "Wrong type:")))
    ensures var (key, dv) := (d.entries[j].key, d.entries[j].val);
            var v := Get(cfg.entries, key).value;
            Fill(cfg, d, trace).Ok? ==>
              IsReq(v).Ok? && (IsReq(v).value ==> v == dv)
              && (!IsReq(v).value ==> Accepts(ReqTypeCheck(dv).value.value, v))
              && Get(Fill(cfg, d, trace).value.entries, key) == Some(v)
  {
    FillBySteps(cfg, d, trace);
    var key := d.entries[j].key;
    var dv := d.entries[j].val;
    PresentStep(cfg, key, dv, trace);
    if FillKey(cfg, key, dv, trace).Err? {
      assert Fill(cfg, d, trace).Err?;
      if Reaches(cfg, d, trace, j) {
        FillFailsAt(cfg, d, trace, j);
      }
    }
  }

  /** A present key under a default that is no placeholder: a sub-dict
      against a non-dict, either way round, makes the walk fail, and where
      the walk reaches the key with the shape error naming it; a non-dict
      default leaves the user's value; two sub-dicts are merged by the walk
      one level down, with the trace extended by the key, whose error is the
      walk's error there. */
  lemma FillPresentPlain(cfg: Value, d: Value, trace: seq<Key>, j: nat)
    requires cfg.Dict? && d.Dict? && DistinctKeys(d.entries) && j < |d.entries|
    requires d.entries[j].key in KeysOf(cfg.entries)
    requires ReqTypeCheck(d.entries[j].val) == Ok(None)
    ensures var (key, dv) := (d.entries[j].key, d.entries[j].val);
            var v := Get(cfg.entries, key).value;
            (v.Dict? != dv.Dict? ==> Fill(cfg, d, trace).Err?)
            && (Fill(cfg, d, trace).Ok? && !dv.Dict? ==> Get(Fill(cfg, d, trace).value.entries, key) == Some(v))
    ensures var (key, dv) := (d.entries[j].key, d.entries[j].val);
            var v := Get(cfg.entries, key).value;
            Reaches(cfg, d, trace, j) ==>
              (v.Dict? && !dv.Dict? ==> Fill(cfg, d, trace) == Err(ShapeError(trace, key, MustBeSingleton)))
              && (!v.Dict? && dv.Dict? ==> Fill(cfg, d, trace) == Err(ShapeError(trace, key, MustBeSubDict)))
              && (v.Dict? && dv.Dict? && Fill(v, dv, trace + [key]).Err? ==> Fill(cfg, d, trace) == Err(Fill(v, dv, trace + [key]).error))
    ensures var (key, dv) := (d.entries[j].key, d.entries[j].val);
            var v := Get(cfg.entries, key).value;
            Fill(cfg, d, trace).Ok? && dv.Dict? ==>
              v.Dict? && Fill(v, dv, trace + [key]).Ok?
              && Stored(cfg.kind, Fill(v, dv, trace + [key]).value).Ok?
              && Get(Fill(cfg, d, trace).value.entries, key) == Some(Stored(cfg.kind, Fill(v, dv, trace + [key]).value).value)
  {
    FillBySteps(cfg, d, trace);
    var key := d.entries[j].key;
    var dv := d.entries[j].val;
    PresentStep(cfg, key, dv, trace);
    if FillKey(cfg, key, dv, trace).Err? {
      assert Fill(cfg, d, trace).Err?;
      if Reaches(cfg, d, trace, j) {
        FillFailsAt(cfg, d, trace, j);
      }
    }
  }

  // ---- Errors name their key path ----------------------------------------

  /** `p` is `trace` or a path below it. */
  predicate Extends(p: seq<Key>, trace: seq<Key>) {
    |trace| <= |p| && p[..|trace|] == trace
  }

  /** The message of `e` quotes `t`. */
  predicate Quotes(e: Error, t: string) {
    (e.ConfigError? && Contains(e.msg, t)) || (e.ConfigErrorShowing? && Contains(e.before, t))
  }

  /** The message of `e` quotes the dotted path of a key at or below
      `trace`, as `_trace_key` writes it. */
  ghost predicate NamesPath(e: Error, trace: seq<Key>) {
    exists p: seq<Key>, k: Key :: Extends(p, trace) && TraceKey(p, k).Ok? && Quotes(e, TraceKey(p, k).value)
  }

  /** The errors a walk over `trace` raises: the empty-enum error, a
      TypeError (a hidden `items`, a key path with a non-string key, a name
      the setter refuses), a ValueError of the setter, or a ConfigError that
      names the key path it is about. */
  ghost predicate WalkError(e: Error, trace: seq<Key>) {
    e == EmptyEnum || e.TypeError? || e.ValueError? || NamesPath(e, trace)
  }

  /** Every error of the walk is a `WalkError`: in particular every
      ConfigError other than the empty-enum one carries the dotted path of
      the key it is about. */
  lemma {:induction false} FillErrorNamesPath(cfg: Value, d: Value, trace: seq<Key>)
    requires cfg.Dict? && d.Dict? && Fill(cfg, d, trace).Err?
    ensures WalkError(Fill(cfg, d, trace).error, trace)
    decreases d, 1
  {
    if !ItemsShadowed(d) {
      FillFromErrorNamesPath(cfg, d, trace, 0);
    }
  }

  lemma {:induction false} FillFromErrorNamesPath(cur: Value, d: Value, trace: seq<Key>, i: nat)
    requires cur.Dict? && d.Dict? && i <= |d.entries| && FillFrom(cur, d, trace, i).Err?
    ensures WalkError(FillFrom(cur, d, trace, i).error, trace)
    decreases d, 0, |d.entries| - i
  {
    FillFromCases(cur, d, trace, i);
    var s := FillKey(cur, d.entries[i].key, d.entries[i].val, trace);
    if s.Err? {
      FillKeyErrorNamesPath(cur, d.entries[i].key, d.entries[i].val, trace);
    } else {
      FillFromErrorNamesPath(s.value, d, trace, i + 1);
    }
  }

  lemma {:induction false} FillKeyErrorNamesPath(cur: Value, key: Key, dv: Value, trace: seq<Key>)
    requires cur.Dict? && FillKey(cur, key, dv, trace).Err?
    ensures WalkError(FillKey(cur, key, dv, trace).error, trace)
    decreases dv, 3
  {
    var dec := Decide(Get(cur.entries, key), key, dv, trace);
    if dec.Err? {
      DecideErrorNamesPath(Get(cur.entries, key), key, dv, trace);
    } else {
      assert dec.value.Some?;
      var x := dec.value.value;
      assert Store(cur, key, x).Err?;
      assert cur.kind != Plain;
      assert SetEntry(cur.kind, cur.entries, key, x).Err?;
    }
  }

  lemma {:induction false} DecideErrorNamesPath(held: Option<Value>, key: Key, dv: Value, trace: seq<Key>)
    requires Decide(held, key, dv, trace).Err?
    ensures WalkError(Decide(held, key, dv, trace).error, trace)
    decreases dv, 2
  {
    var req := ReqTypeCheck(dv);
    if req.Ok? {
      match held
      case None =>
        if req.value.Some? {
          ReqErrorNamesPath(trace, key, req.value.value, "Required entry missing:");
        } else {
          SubDictNamesPath(trace, key, dv);
        }
      case Some(v) =>
        if req.value.Some? {
          if IsReq(v) == Ok(true) {
            MismatchNamesPath(trace, key, v, dv);
          } else {
            ReqErrorNamesPath(trace, key, req.value.value, "Wrong type:");
          }
        } else if v.Dict? && !dv.Dict? {
          ShapeNamesPath(trace, key, MustBeSingleton);
        } else if !v.Dict? {
          ShapeNamesPath(trace, key, MustBeSubDict);
        } else {
          FillErrorNamesPath(v, dv, trace + [key]);
          WalkErrorUp(Fill(v, dv, trace + [key]).error, trace, key);
        }
    }
  }

  /** An error about a key below `trace + [key]` is about a key below
      `trace`. */
  lemma WalkErrorUp(e: Error, trace: seq<Key>, key: Key)
    requires WalkError(e, trace + [key])
    ensures WalkError(e, trace)
  {
    if NamesPath(e, trace + [key]) {
      var p, k :| Extends(p, trace + [key]) && TraceKey(p, k).Ok? && Quotes(e, TraceKey(p, k).value);
      assert p[..|trace|] == p[..|trace| + 1][..|trace|];
      assert Extends(p, trace);
    }
  }

  /** A message quoting the path of `key` under `trace` names a path. */
  lemma QuotesTrace(e: Error, trace: seq<Key>, key: Key)
    requires TraceKey(trace, key).Ok? && Quotes(e, TraceKey(trace, key).value)
    ensures NamesPath(e, trace)
  {
    assert trace[..|trace|] == trace;
    assert Extends(trace, trace);
  }

  lemma ReqErrorNamesPath(trace: seq<Key>, key: Key, rt: ReqType, prefix: string)
    ensures WalkError(ReqError(trace, key, rt, prefix), trace)
  {
    if TraceKey(trace, key).Ok? {
      var t := TraceKey(trace, key).value;
      var a := if prefix == "" then "" else prefix + " ";
      QuotesMiddle(a, t, "must be ", Expected(rt), ".");
      QuotesTrace(ReqError(trace, key, rt, prefix), trace, key);
    }
  }

  lemma QuotesMiddle(a: string, t: string, b: string, c: string, e: string)
    ensures Contains(a + t + b + c + e, t)
  {
    ContainsMiddle(a, t, b + c + e);
    assert a + t + b + c + e == a + t + (b + c + e);
  }

  lemma MismatchNamesPath(trace: seq<Key>, key: Key, v: Value, dv: Value)
    requires v.Str? && dv.Str?
    ensures WalkError(MismatchError(trace, key, v, dv), trace)
  {
    if TraceKey(trace, key).Ok? {
      var t := TraceKey(trace, key).value;
      var b := ": \"" + v.s + "\" must match default \"" + dv.s + "\"";
      ContainsMiddle("inherited ", t, b);
      assert "inherited " + t + ": \"" + v.s + "\" must match default \"" + dv.s + "\"" == "inherited " + t + b;
      QuotesTrace(MismatchError(trace, key, v, dv), trace, key);
    }
  }

  lemma SubDictNamesPath(trace: seq<Key>, key: Key, dv: Value)
    ensures WalkError(SubDictError(trace, key, dv), trace)
  {
    if TraceKey(trace, key).Ok? {
      var t := TraceKey(trace, key).value;
      ContainsMiddle("Sub-dict under key \"", t, "\" contains a required config: ");
      QuotesTrace(SubDictError(trace, key, dv), trace, key);
    }
  }

  lemma ShapeNamesPath(trace: seq<Key>, key: Key, what: string)
    ensures WalkError(ShapeError(trace, key, what), trace)
  {
    if TraceKey(trace, key).Ok? {
      var t := TraceKey(trace, key).value;
      ContainsMiddle("", t, what);
      assert "" + t + what == t + what;
      QuotesTrace(ShapeError(trace, key, what), trace, key);
    }
  }
}
