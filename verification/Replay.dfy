/** Replay protection: the in-memory store and the two persistent stores
    (planrace/auth_v2.py:37-118, planrace/nonce.py:45-63), with what they guarantee over
    any sequence of calls. */
module Replay {

  // ----- one call on a table of keys with expiry times -----------------------

  datatype Call<K> = Call(key: K, expiry: int, clock: int)

  /** `DELETE ... WHERE expires_at <= clock`. */
  function Purged<K>(t: map<K, int>, clock: int): (r: map<K, int>)
    ensures r.Keys <= t.Keys
  {
    map k | k in t && t[k] > clock :: t[k]
  }

  /** Purge, count, insert: the new table and whether the key was admitted. */
  function Step<K>(t: map<K, int>, call: Call<K>, maxEntries: nat): (map<K, int>, bool) {
    var live := Purged(t, call.clock);
    if |live| >= maxEntries || call.key in live then (live, false)
    else (live[call.key := call.expiry], true)
  }

  lemma PurgedSmaller<K>(t: map<K, int>, clock: int)
    ensures |Purged(t, clock)| <= |t|
  {
    var live := Purged(t, clock);
    assert |live.Keys| <= |t.Keys| by { SubsetSize(live.Keys, t.Keys); }
    assert |live| == |live.Keys| && |t| == |t.Keys|;
  }

  lemma {:induction false} SubsetSize<K>(a: set<K>, b: set<K>)
    requires a <= b
    ensures |a| <= |b|
  {
    if a != {} {
      var x :| x in a;
      SubsetSize(a - {x}, b - {x});
    }
  }

  /** No live entry is ever evicted, and the table stays within its limit if it was. */
  lemma StepKeepsLive<K>(t: map<K, int>, call: Call<K>, maxEntries: nat)
    ensures var (t', admitted) := Step(t, call, maxEntries);
            && (forall k :: k in t && t[k] > call.clock && k != call.key ==> k in t' && t'[k] == t[k])
            && (call.key in t && t[call.key] > call.clock ==>
                  !admitted && call.key in t' && t'[call.key] == t[call.key])
            && (admitted ==> call.key in t' && t'[call.key] == call.expiry)
            && (|t| <= maxEntries ==> |t'| <= maxEntries)
            && (!admitted ==> t' == Purged(t, call.clock))
  {
    PurgedSmaller(t, call.clock);
    var live := Purged(t, call.clock);
    if call.key !in live {
      assert live[call.key := call.expiry].Keys == live.Keys + {call.key};
    }
  }

  /** A call is admitted exactly when fewer than the limit of the entries are live, its own key
      not among them; afterwards the table holds the live entries and what was admitted. */
  lemma StepAdmitsIff<K(!new)>(t: map<K, int>, call: Call<K>, maxEntries: nat)
    ensures var (t', admitted) := Step(t, call, maxEntries);
            && (admitted <==>
                  |set k | k in t && t[k] > call.clock| < maxEntries
                  && !(call.key in t && t[call.key] > call.clock))
            && (forall k :: k in t' <==> (k in t && t[k] > call.clock) || (admitted && k == call.key))
            && (forall k :: k in t' ==> t'[k] == if admitted && k == call.key then call.expiry else t[k])
  {
    var live := Purged(t, call.clock);
    assert live.Keys == set k | k in t && t[k] > call.clock;
    assert |live| == |live.Keys|;
  }

  // ----- any sequence of calls -----------------------------------------------

  /** The table after the first `n` calls. */
  function Table<K>(start: map<K, int>, calls: seq<Call<K>>, n: nat, maxEntries: nat): map<K, int>
    requires n <= |calls|
  {
    if n == 0 then start else Step(Table(start, calls, n - 1, maxEntries), calls[n - 1], maxEntries).0
  }

  predicate Admitted<K>(start: map<K, int>, calls: seq<Call<K>>, i: nat, maxEntries: nat)
    requires i < |calls|
  {
    Step(Table(start, calls, i, maxEntries), calls[i], maxEntries).1
  }

  lemma {:induction false} WithinLimit<K>(start: map<K, int>, calls: seq<Call<K>>, n: nat, maxEntries: nat)
    requires n <= |calls| && |start| <= maxEntries
    ensures |Table(start, calls, n, maxEntries)| <= maxEntries
  {
    if n > 0 {
      WithinLimit(start, calls, n - 1, maxEntries);
      StepKeepsLive(Table(start, calls, n - 1, maxEntries), calls[n - 1], maxEntries);
    }
  }

  /** An admitted entry stays until some call samples a clock at or past its expiry. */
  lemma {:induction false} StaysUntilExpiry<K>(
      start: map<K, int>, calls: seq<Call<K>>, i: nat, n: nat, maxEntries: nat)
    requires i < n <= |calls| && Admitted(start, calls, i, maxEntries)
    requires forall k :: i < k < n ==> calls[k].clock < calls[i].expiry
    ensures var t := Table(start, calls, n, maxEntries);
            calls[i].key in t && t[calls[i].key] == calls[i].expiry
  {
    if n == i + 1 {
      StepKeepsLive(Table(start, calls, i, maxEntries), calls[i], maxEntries);
    } else {
      StaysUntilExpiry(start, calls, i, n - 1, maxEntries);
      StepKeepsLive(Table(start, calls, n - 1, maxEntries), calls[n - 1], maxEntries);
    }
  }

  /** A key is admitted a second time only if an intervening or the current call sampled
      a clock at or past the expiry stored with the first admission. */
  lemma ReadmittedOnlyAfterExpiry<K>(
      start: map<K, int>, calls: seq<Call<K>>, i: nat, j: nat, maxEntries: nat)
    requires i < j < |calls| && calls[i].key == calls[j].key
    requires Admitted(start, calls, i, maxEntries) && Admitted(start, calls, j, maxEntries)
    ensures exists k :: i < k <= j && calls[k].clock >= calls[i].expiry
  {
    if forall k :: i < k <= j ==> calls[k].clock < calls[i].expiry {
      StaysUntilExpiry(start, calls, i, j, maxEntries);
      StepKeepsLive(Table(start, calls, j, maxEntries), calls[j], maxEntries);
      assert false;
    }
  }

  lemma PurgedStrictly<K>(t: map<K, int>, clock: int, key: K)
    requires key in t && t[key] <= clock
    ensures |Purged(t, clock)| < |t|
  {
    var live := Purged(t, clock);
    SubsetSize(live.Keys, t.Keys - {key});
    assert |live| == |live.Keys| && |t| == |t.Keys|;
  }

  /** Right after an admission the same key is admitted again exactly when the clock has
      reached the stored expiry, the expiry instant included. */
  lemma SecondAdmissionIff<K>(start: map<K, int>, first: Call<K>, second: Call<K>, maxEntries: nat)
    requires |start| <= maxEntries && first.key == second.key && Step(start, first, maxEntries).1
    ensures Step(Step(start, first, maxEntries).0, second, maxEntries).1 <==> second.clock >= first.expiry
  {
    StepKeepsLive(start, first, maxEntries);
    var t := Step(start, first, maxEntries).0;
    assert first.key in t && t[first.key] == first.expiry;
    if second.clock >= first.expiry { PurgedStrictly(t, second.clock, first.key); }
  }

  // ----- the in-memory store -------------------------------------------------

  datatype ResponseKey = ResponseKey(minerHotkey: string, requestNonce: nat, requestId: string)

  function MemoryStep(keys: set<ResponseKey>, key: ResponseKey, maxEntries: nat): (set<ResponseKey>, bool) {
    if key in keys || |keys| >= maxEntries then (keys, false) else (keys + {key}, true)
  }

  function MemoryTable(start: set<ResponseKey>, calls: seq<ResponseKey>, n: nat, maxEntries: nat): set<ResponseKey>
    requires n <= |calls|
  {
    if n == 0 then start else MemoryStep(MemoryTable(start, calls, n - 1, maxEntries), calls[n - 1], maxEntries).0
  }

  predicate MemoryAdmitted(start: set<ResponseKey>, calls: seq<ResponseKey>, i: nat, maxEntries: nat)
    requires i < |calls|
  {
    MemoryStep(MemoryTable(start, calls, i, maxEntries), calls[i], maxEntries).1
  }

  lemma {:induction false} MemoryGrows(
      start: set<ResponseKey>, calls: seq<ResponseKey>, i: nat, n: nat, maxEntries: nat)
    requires i <= n <= |calls|
    ensures MemoryTable(start, calls, i, maxEntries) <= MemoryTable(start, calls, n, maxEntries)
    ensures |start| <= maxEntries ==> |MemoryTable(start, calls, n, maxEntries)| <= maxEntries
    decreases n
  {
    if n > i {
      MemoryGrows(start, calls, i, n - 1, maxEntries);
    } else if n > 0 {
      MemoryGrows(start, calls, n - 1, n - 1, maxEntries);
    }
  }

  /** The memory store admits a key at most once, ever. */
  lemma MemoryAdmitsOnce(start: set<ResponseKey>, calls: seq<ResponseKey>, i: nat, j: nat, maxEntries: nat)
    requires i < j < |calls| && calls[i] == calls[j]
    requires MemoryAdmitted(start, calls, i, maxEntries)
    ensures !MemoryAdmitted(start, calls, j, maxEntries)
  {
    assert calls[i] in MemoryTable(start, calls, i + 1, maxEntries);
    MemoryGrows(start, calls, i + 1, j, maxEntries);
  }

  // ----- the nonce store -----------------------------------------------------

  datatype NonceKey = NonceKey(hotkey: string, nonce: int)

  datatype NonceCall = NonceCall(key: NonceKey, clock: int)

  /** `DELETE ... WHERE nonce < clock - ttl`, count, insert. */
  function NonceStep(keys: set<NonceKey>, call: NonceCall, ttl: nat, maxEntries: nat): (set<NonceKey>, bool) {
    var live := set k | k in keys && !(k.nonce < call.clock - ttl);
    if |live| >= maxEntries || call.key in live then (live, false) else (live + {call.key}, true)
  }

  /** A nonce is admitted exactly when fewer than the limit of the nonces are at most `ttl`
      older than the clock, itself not among them. */
  lemma NonceAdmitsIff(keys: set<NonceKey>, call: NonceCall, ttl: nat, maxEntries: nat)
    ensures var (keys', admitted) := NonceStep(keys, call, ttl, maxEntries);
            && (admitted <==>
                  |set k | k in keys && k.nonce >= call.clock - ttl| < maxEntries
                  && !(call.key in keys && call.key.nonce >= call.clock - ttl))
            && (forall k :: k in keys' <==> (k in keys && k.nonce >= call.clock - ttl) || (admitted && k == call.key))
  {
    assert (set k | k in keys && k.nonce >= call.clock - ttl) == set k | k in keys && !(k.nonce < call.clock - ttl);
  }

  /** The nonce table as keys with the first clock value that removes them. */
  ghost function Expiring(keys: set<NonceKey>, ttl: nat): map<NonceKey, int> {
    map k | k in keys :: k.nonce + ttl + 1
  }

  function AsCall(call: NonceCall, ttl: nat): Call<NonceKey> {
    Call(call.key, call.key.nonce + ttl + 1, call.clock)
  }

  function AsCalls(calls: seq<NonceCall>, ttl: nat): (r: seq<Call<NonceKey>>)
    ensures |r| == |calls| && forall i :: 0 <= i < |r| ==> r[i] == AsCall(calls[i], ttl)
  {
    if calls == [] then [] else [AsCall(calls[0], ttl)] + AsCalls(calls[1..], ttl)
  }

  /** One step of the nonce store is one step of a table with expiry times. */
  lemma NonceStepRefines(keys: set<NonceKey>, call: NonceCall, ttl: nat, maxEntries: nat)
    ensures var (keys', admitted) := NonceStep(keys, call, ttl, maxEntries);
            Step(Expiring(keys, ttl), AsCall(call, ttl), maxEntries) == (Expiring(keys', ttl), admitted)
  {
    var live := set k | k in keys && !(k.nonce < call.clock - ttl);
    var purged := Purged(Expiring(keys, ttl), call.clock);
    PurgedExpiring(keys, call.clock, ttl);
    assert purged.Keys == live && |purged| == |purged.Keys|;
    ExpiringInsert(live, call.key, ttl);
    hide Purged, Expiring;
  }

  lemma PurgedExpiring(keys: set<NonceKey>, clock: int, ttl: nat)
    ensures var live := set k | k in keys && !(k.nonce < clock - ttl);
            Purged(Expiring(keys, ttl), clock) == Expiring(live, ttl) && Expiring(live, ttl).Keys == live
  {
  }

  lemma ExpiringInsert(keys: set<NonceKey>, key: NonceKey, ttl: nat)
    ensures Expiring(keys, ttl)[key := key.nonce + ttl + 1] == Expiring(keys + {key}, ttl)
  {
  }

  function NonceTable(start: set<NonceKey>, calls: seq<NonceCall>, n: nat, ttl: nat, maxEntries: nat): set<NonceKey>
    requires n <= |calls|
  {
    if n == 0 then start
    else NonceStep(NonceTable(start, calls, n - 1, ttl, maxEntries), calls[n - 1], ttl, maxEntries).0
  }

  predicate NonceAdmitted(start: set<NonceKey>, calls: seq<NonceCall>, i: nat, ttl: nat, maxEntries: nat)
    requires i < |calls|
  {
    NonceStep(NonceTable(start, calls, i, ttl, maxEntries), calls[i], ttl, maxEntries).1
  }

  lemma {:induction false} NonceTableRefines(
      start: set<NonceKey>, calls: seq<NonceCall>, n: nat, ttl: nat, maxEntries: nat)
    requires n <= |calls|
    ensures Table(Expiring(start, ttl), AsCalls(calls, ttl), n, maxEntries)
         == Expiring(NonceTable(start, calls, n, ttl, maxEntries), ttl)
  {
    if n > 0 {
      NonceTableRefines(start, calls, n - 1, ttl, maxEntries);
      NonceStepRefines(NonceTable(start, calls, n - 1, ttl, maxEntries), calls[n - 1], ttl, maxEntries);
    }
  }

  /** A nonce is admitted again only if an intervening or the current call sampled a clock
      strictly past the nonce plus its time to live. */
  lemma NonceReadmittedOnlyAfterTtl(
      start: set<NonceKey>, calls: seq<NonceCall>, i: nat, j: nat, ttl: nat, maxEntries: nat)
    requires i < j < |calls| && calls[i].key == calls[j].key
    requires NonceAdmitted(start, calls, i, ttl, maxEntries) && NonceAdmitted(start, calls, j, ttl, maxEntries)
    ensures exists k :: i < k <= j && calls[k].clock > calls[i].key.nonce + ttl
  {
    var general := AsCalls(calls, ttl);
    NonceTableRefines(start, calls, i, ttl, maxEntries);
    NonceTableRefines(start, calls, j, ttl, maxEntries);
    NonceStepRefines(NonceTable(start, calls, i, ttl, maxEntries), calls[i], ttl, maxEntries);
    NonceStepRefines(NonceTable(start, calls, j, ttl, maxEntries), calls[j], ttl, maxEntries);
    ReadmittedOnlyAfterExpiry(Expiring(start, ttl), general, i, j, maxEntries);
    var k :| i < k <= j && general[k].clock >= general[i].expiry;
    assert calls[k].clock > calls[i].key.nonce + ttl;
  }

  /** The nonce table stays within its limit and keeps every fresh nonce. */
  lemma NonceStoreKeepsFresh(start: set<NonceKey>, calls: seq<NonceCall>, n: nat, ttl: nat, maxEntries: nat)
    requires n <= |calls| && |start| <= maxEntries
    ensures |NonceTable(start, calls, n, ttl, maxEntries)| <= maxEntries
    ensures n > 0 ==>
              var before := NonceTable(start, calls, n - 1, ttl, maxEntries);
              var after := NonceTable(start, calls, n, ttl, maxEntries);
              forall k :: (k in before && k.nonce + ttl >= calls[n - 1].clock) ==> k in after
  {
    NonceTableRefines(start, calls, n, ttl, maxEntries);
    assert Expiring(start, ttl).Keys == start && |Expiring(start, ttl)| == |Expiring(start, ttl).Keys|;
    WithinLimit(Expiring(start, ttl), AsCalls(calls, ttl), n, maxEntries);
    var table := NonceTable(start, calls, n, ttl, maxEntries);
    assert Expiring(table, ttl).Keys == table && |Expiring(table, ttl)| == |Expiring(table, ttl).Keys|;
  }

  // ----- the stores as objects -----------------------------------------------

  class MemoryResponseReplayStore {
    var keys: set<ResponseKey>
    const maxEntries: nat

    constructor (maxEntries: nat)
      requires maxEntries >= 1
      ensures keys == {} && this.maxEntries == maxEntries
    {
      keys := {};
      this.maxEntries := maxEntries;
    }

    method CheckAndStore(key: ResponseKey, expiresAtUnixMs: int) returns (admitted: bool)
      modifies this
      ensures (keys, admitted) == MemoryStep(old(keys), key, maxEntries)
    {
      if key in keys { return false; }
      if |keys| >= maxEntries { return false; }
      keys := keys + {key};
      admitted := true;
    }
  }

  class SqliteResponseReplayStore {
    var rows: map<ResponseKey, int>
    const maxEntries: nat

    constructor (maxEntries: nat)
      requires maxEntries >= 1
      ensures rows == map[] && this.maxEntries == maxEntries
    {
      rows := map[];
      this.maxEntries := maxEntries;
    }

    /** `clock` is what the clock shows when the call purges. */
    method CheckAndStore(key: ResponseKey, expiresAtUnixMs: int, clock: int) returns (admitted: bool)
      modifies this
      ensures (rows, admitted) == Step(old(rows), Call(key, expiresAtUnixMs, clock), maxEntries)
    {
      rows := map k | k in rows && !(rows[k] <= clock) :: rows[k];
      assert rows == Purged(old(rows), clock);
      if |rows| >= maxEntries { return false; }
      if key in rows { return false; }
      rows := rows[key := expiresAtUnixMs];
      admitted := true;
    }
  }

  class SqliteNonceStore {
    var rows: set<NonceKey>
    const ttl: nat
    const maxEntries: nat

    constructor (ttl: nat, maxEntries: nat)
      requires ttl >= 1 && maxEntries >= 1
      ensures rows == {} && this.ttl == ttl && this.maxEntries == maxEntries
    {
      rows := {};
      this.ttl := ttl;
      this.maxEntries := maxEntries;
    }

    method CheckAndStore(hotkey: string, nonce: int, clock: int) returns (admitted: bool)
      modifies this
      ensures (rows, admitted) == NonceStep(old(rows), NonceCall(NonceKey(hotkey, nonce), clock), ttl, maxEntries)
    {
      rows := set k | k in rows && !(k.nonce < clock - ttl);
      if |rows| >= maxEntries { return false; }
      var key := NonceKey(hotkey, nonce);
      if key in rows { return false; }
      rows := rows + {key};
      admitted := true;
    }
  }
}
