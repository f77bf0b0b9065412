/**
 * Running the code `value!` generates (src/macros.rs): the vectors of
 * elements, the map filled by successive inserts, and the fallback through
 * `to_value`. What the compiler and the program make of each embedded Rust
 * expression is a parameter, so every property holds for all of them.
 */
module Evaluation {
  import opened Results
  import opened Values
  import opened Conversions
  import opened Tokens
  import opened Expansion

  /**
   * What a key expression evaluates to before `.into()`: a native with one
   * of the `From` impls, or a value that already has type `Value` and goes
   * through the reflexive `From<Value> for Value` unchanged.
   */
  datatype KeySource = Prim(x: Native) | Already(v: Value)

  /**
   * The meaning of the Rust expressions embedded in a literal:
   * `key` gives what a key expression evaluates to (None when its type has
   * no `Into<Value>`), `byte` the `u8` an element of `[[...]]` evaluates to,
   * and `toValue` the result of `to_value(&expr)` (None when serialisation
   * fails, where `.unwrap()` panics).
   */
  datatype Env = Env(
    key: seq<Tok> -> Option<KeySource>,
    byte: seq<Tok> -> Option<uint8>,
    toValue: seq<Tok> -> Option<Value>)

  /**
   * `(key).into()`: the key goes through `Into<Value>`, not through the
   * grammar; a native is converted by `From`, a `Value` is kept as it is.
   */
  function KeyOf(env: Env, key: seq<Tok>): (r: Result<Value, Error>)
    ensures r.Ok? <==> env.key(key).Some?
    ensures r.Ok? && env.key(key).value.Prim? ==> r.value == From(env.key(key).value.x)
    ensures r.Ok? && env.key(key).value.Already? ==> r.value == env.key(key).value.v
    ensures r.Err? ==> r.error == ConversionFailed(key)
  {
    match env.key(key)
    case Some(Prim(x)) => Ok(From(x))
    case Some(Already(v)) => Ok(v)
    case None => Err(ConversionFailed(key))
  }

  /** Runs generated code; the first failing conversion fails the whole literal. */
  function Run(env: Env, c: Code): Result<Value, Error>
    decreases c, 1
  {
    match c
    case UnitCode => Ok(Unit)
    case BoolCode(b) => Ok(Bool(b))
    case BytesCode(elements) =>
      (match RunBytes(env, elements)
       case Ok(bs) => Ok(Bytes(bs))
       case Err(e) => Err(e))
    case SeqCode(items) =>
      (match RunItems(env, items)
       case Ok(vs) => Ok(Seq(vs))
       case Err(e) => Err(e))
    case MapCode(entries) =>
      (match RunEntries(env, map[], entries)
       case Ok(m) => Ok(Map(m))
       case Err(e) => Err(e))
    case ToValueCode(expr) =>
      (match env.toValue(expr)
       case Some(v) => Ok(v)
       case None => Err(ConversionFailed(expr)))
  }

  /** `vec![e1, ..., en]` of bytes: same length, same order. */
  function RunBytes(env: Env, elements: seq<seq<Tok>>): (r: Result<seq<uint8>, Error>)
    ensures r.Ok? <==> forall k :: 0 <= k < |elements| ==> env.byte(elements[k]).Some?
    ensures r.Ok? ==> |r.value| == |elements|
    ensures r.Ok? ==> forall k :: 0 <= k < |elements| ==> r.value[k] == env.byte(elements[k]).value
  {
    if elements == [] then Ok([])
    else
      match env.byte(elements[0])
      case None => Err(ConversionFailed(elements[0]))
      case Some(b) =>
        match RunBytes(env, elements[1..])
        case Err(e) => Err(e)
        case Ok(bs) => Ok([b] + bs)
  }

  /** `vec![v1, ..., vn]` of values, evaluated left to right. */
  function RunItems(env: Env, items: seq<Code>): (r: Result<seq<Value>, Error>)
    ensures r.Ok? <==> forall k :: 0 <= k < |items| ==> Run(env, items[k]).Ok?
    ensures r.Ok? ==> |r.value| == |items|
    ensures r.Ok? ==> forall k :: 0 <= k < |items| ==> r.value[k] == Run(env, items[k]).value
    decreases items, 0
  {
    if items == [] then Ok([])
    else
      match Run(env, items[0])
      case Err(e) => Err(e)
      case Ok(v) =>
        match RunItems(env, items[1..])
        case Err(e) => Err(e)
        case Ok(vs) => Ok([v] + vs)
  }

  /** The successive `object.insert(key.into(), value)` calls, the key evaluated first. */
  function RunEntries(env: Env, obj: map<Value, Value>, entries: seq<Entry>): Result<map<Value, Value>, Error>
    decreases entries, 0
  {
    if entries == [] then Ok(obj)
    else
      match KeyOf(env, entries[0].key)
      case Err(e) => Err(e)
      case Ok(k) =>
        match Run(env, entries[0].value)
        case Err(e) => Err(e)
        case Ok(v) => RunEntries(env, obj[k := v], entries[1..])
  }

  /**
   * The block generated for `{ k1: v1, ... }`: a mutable map, one insert
   * per entry, then the map wrapped in `Value::Map`.
   */
  method BuildObject(env: Env, entries: seq<Entry>) returns (r: Result<Value, Error>)
    ensures r == Run(env, MapCode(entries))
  {
    var obj: map<Value, Value> := map[];
    var i := 0;
    while i < |entries|
      invariant 0 <= i <= |entries|
      invariant RunEntries(env, obj, entries[i..]) == RunEntries(env, map[], entries)
    {
      var k := KeyOf(env, entries[i].key);
      if k.Err? {
        return Err(k.error);
      }
      var v := Run(env, entries[i].value);
      if v.Err? {
        return Err(v.error);
      }
      obj := obj[k.value := v.value];
      i := i + 1;
    }
    return Ok(Map(obj));
  }

  /** `value!(tokens)`: expand, then run what the expansion produced. */
  function Build(env: Env, ts: seq<Tok>): Result<Value, Error> {
    match Expand(ts)
    case Err(e) => Err(e)
    case Ok(c) => Run(env, c)
  }

  // ---------------------------------------------------------------------
  // The map a literal builds: every key written, the last value per key
  // ---------------------------------------------------------------------

  /** The inserts succeed exactly when every key converts and every value runs. */
  lemma {:induction false} RunEntriesSucceeds(env: Env, obj: map<Value, Value>, entries: seq<Entry>)
    ensures RunEntries(env, obj, entries).Ok? <==>
      forall j :: 0 <= j < |entries| ==> KeyOf(env, entries[j].key).Ok? && Run(env, entries[j].value).Ok?
    decreases entries
  {
    if entries != [] {
      var k, v := KeyOf(env, entries[0].key), Run(env, entries[0].value);
      if k.Ok? && v.Ok? {
        RunEntriesSucceeds(env, obj[k.value := v.value], entries[1..]);
        assert forall j :: 1 <= j < |entries| ==> entries[j] == entries[1..][j - 1];
      }
    }
  }

  /** The keys of the result are those already present and those written. */
  lemma {:induction false} RunEntriesKeys(env: Env, obj: map<Value, Value>, entries: seq<Entry>, result: map<Value, Value>)
    requires RunEntries(env, obj, entries) == Ok(result)
    ensures forall k :: k in result <==>
      (k in obj || exists j :: 0 <= j < |entries| && KeyOf(env, entries[j].key) == Ok(k))
    decreases entries
  {
    if entries != [] {
      var k0, v0 := KeyOf(env, entries[0].key).value, Run(env, entries[0].value).value;
      RunEntriesKeys(env, obj[k0 := v0], entries[1..], result);
      forall k | k in result
        ensures k in obj || exists j :: 0 <= j < |entries| && KeyOf(env, entries[j].key) == Ok(k)
      {
        if k !in obj && k != k0 {
          var j :| 0 <= j < |entries[1..]| && KeyOf(env, entries[1..][j].key) == Ok(k);
          assert KeyOf(env, entries[j + 1].key) == Ok(k);
        }
      }
      forall k | k in obj || exists j :: 0 <= j < |entries| && KeyOf(env, entries[j].key) == Ok(k)
        ensures k in result
      {
        if k !in obj && k != k0 {
          var j :| 0 <= j < |entries| && KeyOf(env, entries[j].key) == Ok(k);
          assert j != 0;
          assert KeyOf(env, entries[1..][j - 1].key) == Ok(k);
        }
      }
    }
  }

  /** A key no entry writes keeps the value it had. */
  lemma {:induction false} RunEntriesKeepsUnwritten(env: Env, obj: map<Value, Value>, entries: seq<Entry>,
                                                    result: map<Value, Value>, k: Value)
    requires RunEntries(env, obj, entries) == Ok(result)
    requires k in obj
    requires forall j :: 0 <= j < |entries| ==> KeyOf(env, entries[j].key) != Ok(k)
    ensures k in result && result[k] == obj[k]
    decreases entries
  {
    if entries != [] {
      var k0, v0 := KeyOf(env, entries[0].key).value, Run(env, entries[0].value).value;
      assert KeyOf(env, entries[0].key) != Ok(k);
      forall j | 0 <= j < |entries[1..]| ensures KeyOf(env, entries[1..][j].key) != Ok(k) {
        assert entries[1..][j] == entries[j + 1];
      }
      RunEntriesKeepsUnwritten(env, obj[k0 := v0], entries[1..], result, k);
    }
  }

  /** Last write wins: an entry whose key no later entry repeats decides that key's value. */
  lemma {:induction false} RunEntriesLastWriteWins(env: Env, obj: map<Value, Value>, entries: seq<Entry>,
                                                   result: map<Value, Value>, j: nat)
    requires RunEntries(env, obj, entries) == Ok(result)
    requires j < |entries|
    requires forall l :: j < l < |entries| ==> KeyOf(env, entries[l].key) != KeyOf(env, entries[j].key)
    ensures KeyOf(env, entries[j].key).Ok? && Run(env, entries[j].value).Ok?
    ensures KeyOf(env, entries[j].key).value in result
    ensures result[KeyOf(env, entries[j].key).value] == Run(env, entries[j].value).value
    decreases entries
  {
    RunEntriesSucceeds(env, obj, entries);
    var k0, v0 := KeyOf(env, entries[0].key).value, Run(env, entries[0].value).value;
    if j == 0 {
      forall l | 0 <= l < |entries[1..]| ensures KeyOf(env, entries[1..][l].key) != Ok(k0) {
        assert entries[1..][l] == entries[l + 1];
      }
      RunEntriesKeepsUnwritten(env, obj[k0 := v0], entries[1..], result, k0);
    } else {
      forall l | j - 1 < l < |entries[1..]|
        ensures KeyOf(env, entries[1..][l].key) != KeyOf(env, entries[1..][j - 1].key)
      {
        assert entries[1..][l] == entries[l + 1];
      }
      RunEntriesLastWriteWins(env, obj[k0 := v0], entries[1..], result, j - 1);
    }
  }
}
