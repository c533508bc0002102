/** The memo cache of the older generation (`src/memof1.rs`): for each memoised function
  * (its address) and each key, the arguments of the last call and its value. */
module Memo {
  import opened Wrappers

  /** A `serde_json::Value` argument, opaque and comparable. */
  type Json = string

  type Caches<V> = map<nat, map<string, (seq<Json>, V)>>

  /** What is stored for `(address, key)`. */
  function Entry<V>(c: Caches<V>, address: nat, key: string): Option<(seq<Json>, V)>
  {
    if address in c && key in c[address] then Some(c[address][key]) else None
  }

  /** A hit: an entry whose stored arguments equal the new ones. */
  predicate Hit<V>(c: Caches<V>, address: nat, key: string, args: seq<Json>)
  {
    Entry(c, address, key).Some? && Entry(c, address, key).value.0 == args
  }

  /** The inner map for `address`, created empty when missing (`or_insert_with`). */
  function Inner<V>(c: Caches<V>, address: nat): map<string, (seq<Json>, V)>
  {
    if address in c then c[address] else map[]
  }

  /** The result of `internal_memof1_call_by` when `f` would return `f`, and whether `f`
    * is called. */
  function CallResult<V>(c: Caches<V>, address: nat, key: string, args: seq<Json>, f: Result<V>): (r: (Result<V>, bool))
    ensures Hit(c, address, key, args) ==> r == (Ok(Entry(c, address, key).value.1), false)
    ensures !Hit(c, address, key, args) ==> r == (f, true)
  {
    if Hit(c, address, key, args) then (Ok(c[address][key].1), false) else (f, true)
  }

  /** The caches after the call. */
  function CacheAfter<V>(c: Caches<V>, address: nat, key: string, args: seq<Json>, f: Result<V>): Caches<V>
  {
    var inner := Inner(c, address);
    if Hit(c, address, key, args) || f.Err? then c[address := inner]
    else c[address := inner[key := (args, f.value)]]
  }

  /** A call leaves every other entry alone and always leaves an inner map for `address`. */
  lemma OthersUntouched<V>(c: Caches<V>, address: nat, key: string, args: seq<Json>, f: Result<V>,
                           address': nat, key': string)
    requires address' != address || key' != key
    ensures Entry(CacheAfter(c, address, key, args, f), address', key') == Entry(c, address', key')
    ensures address in CacheAfter(c, address, key, args, f)
  {
  }

  /** A hit and a failing `f` leave the entry for `(address, key)` as it was; a miss with a
    * value stores the new arguments with it. */
  lemma EntryAfter<V>(c: Caches<V>, address: nat, key: string, args: seq<Json>, f: Result<V>)
    ensures Hit(c, address, key, args) || f.Err? ==>
      Entry(CacheAfter(c, address, key, args, f), address, key) == Entry(c, address, key)
    ensures !Hit(c, address, key, args) && f.Ok? ==>
      Entry(CacheAfter(c, address, key, args, f), address, key) == Some((args, f.value))
  {
  }

  /** Once a call has succeeded, the same call again is a hit: it returns the same value
    * without calling `f`, whatever `f` would now return, and changes nothing. */
  lemma {:induction false} RepeatIsHit<V>(c: Caches<V>, address: nat, key: string, args: seq<Json>,
                                          f: Result<V>, g: Result<V>)
    requires CallResult(c, address, key, args, f).0.Ok?
    ensures var c' := CacheAfter(c, address, key, args, f);
      Hit(c', address, key, args) &&
      CallResult(c', address, key, args, g) == (CallResult(c, address, key, args, f).0, false) &&
      CacheAfter(c', address, key, args, g) == c'
  {
    EntryAfter(c, address, key, args, f);
  }

  /** The shared cache, `Rc<RefCell<HashMap<usize, HashMap<String, (Vec<Value>, T)>>>>`. */
  class MemoCache<V> {
    var caches: Caches<V>

    constructor()
      ensures caches == map[]
    {
      caches := map[];
    }

    /** `internal_memof1_call_by`, with `f` standing for what the memoised function returns
      * if it is called; `called` tells whether it is. */
    method CallBy(address: nat, key: string, args: seq<Json>, f: Result<V>) returns (r: Result<V>, called: bool)
      modifies this
      ensures (r, called) == CallResult(old(caches), address, key, args, f)
      ensures caches == CacheAfter(old(caches), address, key, args, f)
    {
      if address !in caches {
        caches := caches[address := map[]];
      }
      var fDict := caches[address];
      if key in fDict {
        var (oldArgs, v) := fDict[key];
        if oldArgs == args {
          return Ok(v), false;
        } else {
          called := true;
          if f.Err? {
            return f, called;
          }
          caches := caches[address := fDict[key := (args, f.value)]];
          return f, called;
        }
      } else {
        called := true;
        if f.Err? {
          return f, called;
        }
        caches := caches[address := fDict[key := (args, f.value)]];
        return f, called;
      }
    }
  }
}
