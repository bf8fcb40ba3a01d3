/**
 * lib/ip-rotation.ts: the list of IP-lookup API keys with per-key request
 * counters, the choice of the key for the next lookup, the counting that
 * moves `currentIndex` past an exhausted key, the resets, and the merge of
 * the saved state with the configured keys. The fallback switch is a
 * parameter (it is off as shipped); environment variables, the saved state
 * and the clock are inputs.
 */
module IpRotation {
  import opened Basics
  import opened Text
  import opened Query
  import opened Constants

  datatype Service = Ipapi | Ipgeolocation

  datatype ApiKey = ApiKey(service: Service, key: string, requestCount: nat, lastReset: int)

  /** `IPApiConfig`: the keys and the index rotation last moved to. */
  datatype Config = Config(keys: seq<ApiKey>, currentIndex: nat)

  const PlaceholderKey := "your_ipgeolocation_api_key"

  /** The keyless ipapi.co entry every list starts with. */
  function IpapiKey(now: int): ApiKey
  {
    ApiKey(Ipapi, "free", 0, now)
  }

  /** Environment slot `i` holds a usable key: present, and neither blank nor the placeholder once trimmed. */
  predicate Usable(env: map<nat, string>, i: nat)
  {
    i in env && env[i] != "" && Trim(env[i]) != "" && Trim(env[i]) != PlaceholderKey
  }

  /** The ipgeolocation.io keys of slots 1 to `n`, in slot order. */
  function SlotKeys(env: map<nat, string>, n: nat, now: int): (ks: seq<ApiKey>)
    ensures |ks| <= n
    ensures forall j :: 0 <= j < |ks| ==>
      ks[j].service == Ipgeolocation && ks[j].requestCount == 0 && ks[j].lastReset == now
  {
    if n == 0 then []
    else
      SlotKeys(env, n - 1, now)
      + (if Usable(env, n) then [ApiKey(Ipgeolocation, Trim(env[n]), 0, now)] else [])
  }

  /** The slot the `j`-th key of `SlotKeys(env, n, now)` was read from: a usable one, trimmed. */
  function SlotOf(env: map<nat, string>, n: nat, now: int, j: nat): (i: nat)
    requires j < |SlotKeys(env, n, now)|
    ensures 1 <= i <= n && Usable(env, i) && SlotKeys(env, n, now)[j].key == Trim(env[i])
    decreases n
  {
    if j < |SlotKeys(env, n - 1, now)| then SlotOf(env, n - 1, now, j) else n
  }

  /** Every usable slot among 1 to `n` contributes its trimmed key. */
  lemma {:induction false} SlotKeysComplete(env: map<nat, string>, n: nat, now: int, i: nat)
    requires 1 <= i <= n && Usable(env, i)
    ensures ApiKey(Ipgeolocation, Trim(env[i]), 0, now) in SlotKeys(env, n, now)
    decreases n
  {
    var m := n - 1;
    var tail := if Usable(env, n) then [ApiKey(Ipgeolocation, Trim(env[n]), 0, now)] else [];
    assert SlotKeys(env, n, now) == SlotKeys(env, m, now) + tail;
    if i < n {
      SlotKeysComplete(env, m, now, i);
    }
  }

  /** What `loadAPIKeysFromEnv` returns: the ipapi entry, then the usable keys of slots 1 to 10 when the fallback is on. */
  function EnvKeys(env: map<nat, string>, fallback: bool, now: int): (ks: seq<ApiKey>)
    ensures 1 <= |ks| <= 11 && ks[0] == IpapiKey(now)
    ensures !fallback ==> ks == [IpapiKey(now)]
    ensures forall j :: 1 <= j < |ks| ==> ks[j].service == Ipgeolocation
  {
    [IpapiKey(now)] + (if fallback then SlotKeys(env, 10, now) else [])
  }

  /** As shipped, with the fallback off, the list is the ipapi entry alone. */
  lemma ShippedKeys(env: map<nat, string>, now: int)
    ensures EnvKeys(env, EnableIpGeolocationFallback, now) == [ApiKey(Ipapi, "free", 0, now)]
  {}

  /** `loadAPIKeysFromEnv`: the loop over the ten slots. */
  method LoadApiKeysFromEnv(env: map<nat, string>, fallback: bool, now: int) returns (keys: seq<ApiKey>)
    ensures keys == EnvKeys(env, fallback, now)
  {
    keys := [IpapiKey(now)];
    if fallback {
      for slot := 0 to 10
        invariant keys == [IpapiKey(now)] + SlotKeys(env, slot, now)
      {
        var i := slot + 1;
        var tail := if Usable(env, i) then [ApiKey(Ipgeolocation, Trim(env[i]), 0, now)] else [];
        assert SlotKeys(env, i, now) == SlotKeys(env, slot, now) + tail;
        if Usable(env, i) {
          keys := keys + [ApiKey(Ipgeolocation, Trim(env[i]), 0, now)];
        }
      }
    }
  }

  /** The index of the first key of the service and name, if any: `findIndex`. */
  function FindKey(keys: seq<ApiKey>, service: Service, key: string): (r: Option<nat>)
    ensures r.Some? ==> r.value < |keys| && keys[r.value].service == service && keys[r.value].key == key
    ensures r.Some? ==> forall j :: 0 <= j < r.value ==> !(keys[j].service == service && keys[j].key == key)
    ensures r.None? ==> forall j :: 0 <= j < |keys| ==> !(keys[j].service == service && keys[j].key == key)
    decreases |keys|
  {
    if keys == [] then None
    else if keys[0].service == service && keys[0].key == key then Some(0)
    else
      match FindKey(keys[1..], service, key)
      case None => None
      case Some(i) => Some(i + 1)
  }

  /**
   * The merge in `getStoredState`: the configured keys in configured order,
   * each replaced by the first saved entry of the same service and name.
   */
  function MergeKeys(envKeys: seq<ApiKey>, saved: seq<ApiKey>): (ks: seq<ApiKey>)
    ensures |ks| == |envKeys|
    ensures forall j :: 0 <= j < |ks| ==> ks[j].service == envKeys[j].service && ks[j].key == envKeys[j].key
    ensures forall j :: 0 <= j < |ks| ==>
      ks[j] == match FindKey(saved, envKeys[j].service, envKeys[j].key)
               case Some(i) => saved[i]
               case None => envKeys[j]
  {
    seq(|envKeys|, j requires 0 <= j < |envKeys| =>
      match FindKey(saved, envKeys[j].service, envKeys[j].key)
      case Some(i) => saved[i]
      case None => envKeys[j])
  }

  /** Every count set to zero and every reset stamp to `now`. */
  function ResetAll(keys: seq<ApiKey>, now: int): (ks: seq<ApiKey>)
    ensures |ks| == |keys|
    ensures forall j :: 0 <= j < |ks| ==> ks[j] == keys[j].(requestCount := 0, lastReset := now)
  {
    seq(|keys|, j requires 0 <= j < |keys| => keys[j].(requestCount := 0, lastReset := now))
  }

  /**
   * What `getStoredState` yields, with the new value of the saved last-reset
   * stamp when it writes one. Outside a browser, or without a readable saved
   * state, the configured keys start fresh; otherwise the saved counts are
   * zeroed if a day has passed since the saved stamp, merged into the
   * configured keys, and the saved index kept if it is still in range.
   */
  function StoredState(inBrowser: bool, saved: Option<Config>, savedLastReset: Option<int>,
                       env: map<nat, string>, fallback: bool, now: int): (r: (Config, Option<int>))
    ensures |r.0.keys| >= 1 && r.0.currentIndex < |r.0.keys|
    ensures |r.0.keys| == |EnvKeys(env, fallback, now)|
    ensures forall j :: 0 <= j < |r.0.keys| ==>
      r.0.keys[j].service == EnvKeys(env, fallback, now)[j].service && r.0.keys[j].key == EnvKeys(env, fallback, now)[j].key
    ensures !inBrowser || saved.None? ==> r.0 == Config(EnvKeys(env, fallback, now), 0)
    ensures inBrowser && saved.Some? ==>
      r.0.currentIndex == (if saved.value.currentIndex < |r.0.keys| then saved.value.currentIndex else 0)
  {
    var initial := Config(EnvKeys(env, fallback, now), 0);
    if !inBrowser then (initial, None)
    else if saved.None? then (initial, Some(now))
    else
      var expired := savedLastReset.Some? && now - savedLastReset.value >= IpKeyResetIntervalMs;
      var keys := if expired then ResetAll(saved.value.keys, now) else saved.value.keys;
      var merged := MergeKeys(EnvKeys(env, fallback, now), keys);
      (Config(merged, if saved.value.currentIndex < |merged| then saved.value.currentIndex else 0),
       if expired then Some(now) else None)
  }

  /** Saved counts survive the merge for keys still configured, unless a day has passed, when all are zero. */
  lemma StoredStateCounts(saved: Config, savedLastReset: Option<int>, env: map<nat, string>, fallback: bool, now: int, j: nat)
    requires j < |EnvKeys(env, fallback, now)|
    ensures var e := EnvKeys(env, fallback, now)[j];
      var r := StoredState(true, Some(saved), savedLastReset, env, fallback, now).0;
      var expired := savedLastReset.Some? && now - savedLastReset.value >= IpKeyResetIntervalMs;
      && (expired ==> r.keys[j].requestCount == 0)
      && (!expired && FindKey(saved.keys, e.service, e.key).Some? ==>
            r.keys[j].requestCount == saved.keys[FindKey(saved.keys, e.service, e.key).value].requestCount)
      && (FindKey(saved.keys, e.service, e.key).None? ==> r.keys[j].requestCount == 0)
  {
    var e := EnvKeys(env, fallback, now)[j];
    var expired := savedLastReset.Some? && now - savedLastReset.value >= IpKeyResetIntervalMs;
    if expired {
      var reset := ResetAll(saved.keys, now);
      assert forall i :: 0 <= i < |saved.keys| ==> reset[i].service == saved.keys[i].service && reset[i].key == saved.keys[i].key;
      SameNamesSameFind(saved.keys, reset, e.service, e.key);
    } else if FindKey(saved.keys, e.service, e.key).None? {
      if j > 0 {
        assert e in SlotKeys(env, 10, now);
      }
    }
  }

  /** Lists that agree on every service and name find the same index. */
  lemma {:induction false} SameNamesSameFind(a: seq<ApiKey>, b: seq<ApiKey>, service: Service, key: string)
    requires |a| == |b|
    requires forall i :: 0 <= i < |a| ==> a[i].service == b[i].service && a[i].key == b[i].key
    ensures FindKey(a, service, key) == FindKey(b, service, key)
    decreases |a|
  {
    if a != [] {
      SameNamesSameFind(a[1..], b[1..], service, key);
    }
  }

  /** The first key of the list below the request limit, if any. */
  function FirstAvailable(keys: seq<ApiKey>): (r: Option<ApiKey>)
    ensures r.Some? ==> r.value in keys && r.value.requestCount < MaxRequestsPerIpKey
    ensures r.None? ==> forall j :: 0 <= j < |keys| ==> keys[j].requestCount >= MaxRequestsPerIpKey
    decreases |keys|
  {
    if keys == [] then None
    else if keys[0].requestCount < MaxRequestsPerIpKey then Some(keys[0])
    else FirstAvailable(keys[1..])
  }

  /** The first key of a service: `find`. */
  function FirstOf(keys: seq<ApiKey>, service: Service): (r: Option<ApiKey>)
    ensures r.Some? ==> r.value in keys && r.value.service == service
    ensures r.None? ==> forall j :: 0 <= j < |keys| ==> keys[j].service != service
    decreases |keys|
  {
    if keys == [] then None
    else if keys[0].service == service then Some(keys[0])
    else FirstOf(keys[1..], service)
  }

  /** The key below the limit with every earlier key at the limit is the one `FirstAvailable` gives. */
  lemma {:induction false} FirstAvailableIsFirst(keys: seq<ApiKey>, i: nat)
    requires i < |keys| && keys[i].requestCount < MaxRequestsPerIpKey
    requires forall j :: 0 <= j < i ==> keys[j].requestCount >= MaxRequestsPerIpKey
    ensures FirstAvailable(keys) == Some(keys[i])
    decreases i
  {
    if i > 0 {
      FirstAvailableIsFirst(keys[1..], i - 1);
    }
  }

  /** The key of the service with no earlier key of that service is the one `FirstOf` gives. */
  lemma {:induction false} FirstOfIsFirst(keys: seq<ApiKey>, service: Service, i: nat)
    requires i < |keys| && keys[i].service == service
    requires forall j :: 0 <= j < i ==> keys[j].service != service
    ensures FirstOf(keys, service) == Some(keys[i])
    decreases i
  {
    if i > 0 {
      FirstOfIsFirst(keys[1..], service, i - 1);
    }
  }

  function ServiceFn(service: Service): ApiKey -> bool
  {
    (k: ApiKey) => k.service == service
  }

  /** The key `getNextIPApiKey` returns and the index it leaves. */
  datatype Choice = Choice(key: Option<ApiKey>, currentIndex: nat)

  /**
   * `getNextIPApiKey`: nothing without keys; the ipapi entry while it is
   * below the limit; with the fallback on, the first ipgeolocation key below
   * the limit, or else the key after `currentIndex`, which moves there; in
   * every other case the ipapi entry, or the first key.
   */
  function NextKey(c: Config, fallback: bool): (r: Choice)
    ensures r.key.None? <==> |c.keys| == 0
    ensures r.key.Some? ==> r.key.value in c.keys
    ensures r.currentIndex != c.currentIndex ==>
      |c.keys| > 0 && fallback && r.currentIndex == (c.currentIndex + 1) % |c.keys| && r.key == Some(c.keys[r.currentIndex])
  {
    if |c.keys| == 0 then Choice(None, c.currentIndex)
    else
      var ipapi := FirstOf(c.keys, Ipapi);
      if ipapi.Some? && ipapi.value.requestCount < MaxRequestsPerIpKey then Choice(ipapi, c.currentIndex)
      else
        var ipgeo := Filter(c.keys, ServiceFn(Ipgeolocation));
        FilterMembers(c.keys, ServiceFn(Ipgeolocation));
        if fallback && FirstAvailable(ipgeo).Some? then Choice(FirstAvailable(ipgeo), c.currentIndex)
        else if fallback && |ipgeo| > 0 then
          var next := (c.currentIndex + 1) % |c.keys|;
          Choice(Some(c.keys[next]), next)
        else Choice(if ipapi.Some? then ipapi else Some(c.keys[0]), c.currentIndex)
  }

  /**
   * The choice avoids exhausted keys when it can: the ipapi entry is chosen,
   * and the index kept, whenever it is below the limit; otherwise, with the fallback on, an
   * ipgeolocation key below the limit is chosen whenever there is one.
   */
  lemma NextKeyAvoidsExhausted(c: Config, fallback: bool, j: nat)
    requires j < |c.keys|
    ensures var ipapi := FirstOf(c.keys, Ipapi);
      ipapi.Some? && ipapi.value.requestCount < MaxRequestsPerIpKey ==>
        NextKey(c, fallback).key == ipapi && NextKey(c, fallback).currentIndex == c.currentIndex
    ensures fallback && c.keys[j].service == Ipgeolocation && c.keys[j].requestCount < MaxRequestsPerIpKey ==>
      var r := NextKey(c, fallback);
      r.key.Some? && r.key.value.requestCount < MaxRequestsPerIpKey && r.currentIndex == c.currentIndex
  {
    var ipgeo := Filter(c.keys, ServiceFn(Ipgeolocation));
    if c.keys[j].service == Ipgeolocation && c.keys[j].requestCount < MaxRequestsPerIpKey {
      FilterMembers(c.keys, ServiceFn(Ipgeolocation));
      assert c.keys[j] in ipgeo;
      var k :| 0 <= k < |ipgeo| && ipgeo[k] == c.keys[j];
    }
  }

  /**
   * With the fallback on and the ipapi entry absent or exhausted, the choice
   * is the first ipgeolocation key below the limit when there is one, and the
   * index stays.
   */
  lemma NextKeyFirstIpgeo(c: Config)
    requires |c.keys| > 0
    requires FirstOf(c.keys, Ipapi).None? || FirstOf(c.keys, Ipapi).value.requestCount >= MaxRequestsPerIpKey
    requires FirstAvailable(Filter(c.keys, ServiceFn(Ipgeolocation))).Some?
    ensures NextKey(c, true) == Choice(FirstAvailable(Filter(c.keys, ServiceFn(Ipgeolocation))), c.currentIndex)
  {}

  /**
   * With the fallback on, when every key has reached the limit and there is
   * an ipgeolocation key, the index moves to the next key round the list and
   * that key is returned.
   */
  lemma NextKeyRotates(c: Config, g: nat)
    requires g < |c.keys| && c.keys[g].service == Ipgeolocation
    requires forall j :: 0 <= j < |c.keys| ==> c.keys[j].requestCount >= MaxRequestsPerIpKey
    ensures var next := (c.currentIndex + 1) % |c.keys|;
      NextKey(c, true) == Choice(Some(c.keys[next]), next)
  {
    var ipgeo := Filter(c.keys, ServiceFn(Ipgeolocation));
    FilterMembers(c.keys, ServiceFn(Ipgeolocation));
    assert c.keys[g] in ipgeo;
    forall k | 0 <= k < |ipgeo| ensures ipgeo[k].requestCount >= MaxRequestsPerIpKey {
      assert ipgeo[k] in c.keys;
    }
  }

  /** With the fallback off, as shipped, the choice is the ipapi entry (or the first key) and the index stays. */
  lemma NextKeyWithoutFallback(c: Config)
    requires |c.keys| > 0
    ensures var r := NextKey(c, false);
      && r.currentIndex == c.currentIndex
      && r.key == (if FirstOf(c.keys, Ipapi).Some? then FirstOf(c.keys, Ipapi) else Some(c.keys[0]))
  {}

  /** The first available key of a list whose head is exhausted is the first available key of its tail. */
  lemma FirstAvailableSkip(keys: seq<ApiKey>, i: nat)
    requires i < |keys| && keys[i].requestCount >= MaxRequestsPerIpKey
    ensures FirstAvailable(keys[i..]) == FirstAvailable(keys[i + 1..])
  {
    assert keys[i..][1..] == keys[i + 1..];
  }

  /** The `for ... of` loop of `getNextIPApiKey`: the first key below the limit. */
  method FindAvailable(keys: seq<ApiKey>) returns (r: Option<ApiKey>)
    ensures r == FirstAvailable(keys)
  {
    var i := 0;
    while i < |keys|
      invariant 0 <= i <= |keys|
      invariant FirstAvailable(keys[i..]) == FirstAvailable(keys)
    {
      if keys[i].requestCount < MaxRequestsPerIpKey {
        return Some(keys[i]);
      }
      FirstAvailableSkip(keys, i);
      i := i + 1;
    }
    return None;
  }

  /**
   * `incrementKeyUsage` on a configuration: the first key with the service
   * and name counts one more request; when that brings it to the limit,
   * `currentIndex` moves to the key after it. An unknown key changes nothing.
   */
  function Incremented(c: Config, service: Service, key: string): (r: Config)
  {
    match FindKey(c.keys, service, key)
    case None => c
    case Some(k) =>
      var counted := c.keys[k].(requestCount := c.keys[k].requestCount + 1);
      Config(c.keys[k := counted],
             if counted.requestCount >= MaxRequestsPerIpKey then (k + 1) % |c.keys| else c.currentIndex)
  }

  /**
   * Only the matching key's count changes, by one; the index moves exactly
   * when that count reaches the limit, and it stays within the list.
   */
  lemma IncrementedLaws(c: Config, service: Service, key: string)
    requires c.currentIndex < |c.keys|
    ensures var r := Incremented(c, service, key);
      && |r.keys| == |c.keys| && r.currentIndex < |r.keys|
      && match FindKey(c.keys, service, key)
         case None => r == c
         case Some(k) =>
           && r.keys[k] == c.keys[k].(requestCount := c.keys[k].requestCount + 1)
           && (forall j :: 0 <= j < |c.keys| && j != k ==> r.keys[j] == c.keys[j])
           && (r.currentIndex != c.currentIndex ==> r.keys[k].requestCount >= MaxRequestsPerIpKey)
           && (r.keys[k].requestCount >= MaxRequestsPerIpKey ==> r.currentIndex == (k + 1) % |c.keys|)
  {}

  /** A key that is not configured is not counted. */
  lemma IncrementUnknownKey(c: Config, service: Service, key: string)
    requires forall j :: 0 <= j < |c.keys| ==> !(c.keys[j].service == service && c.keys[j].key == key)
    ensures Incremented(c, service, key) == c
  {}

  /**
   * The position of the `n`-th key (from zero) of a service: a key of that
   * service with exactly `n` keys of the service before it.
   */
  function NthOf(keys: seq<ApiKey>, service: Service, n: nat): (r: Option<nat>)
    ensures r.Some? ==> r.value < |keys|
    decreases |keys|
  {
    if keys == [] then None
    else if keys[0].service == service && n == 0 then Some(0)
    else
      match NthOf(keys[1..], service, if keys[0].service == service then n - 1 else n)
      case None => None
      case Some(i) => Some(i + 1)
  }

  /** There is an `n`-th key exactly when the service has more than `n` keys. */
  lemma {:induction false} NthOfPosition(keys: seq<ApiKey>, service: Service, n: nat)
    ensures NthOf(keys, service, n).Some? <==> n < Count(keys, ServiceFn(service))
    decreases |keys|
  {
    if keys != [] && !(keys[0].service == service && n == 0) {
      NthOfPosition(keys[1..], service, if keys[0].service == service then n - 1 else n);
    }
  }

  /** The `n`-th key is of the service and has exactly `n` keys of the service before it. */
  lemma {:induction false} NthOfCount(keys: seq<ApiKey>, service: Service, n: nat)
    requires NthOf(keys, service, n).Some?
    ensures var i := NthOf(keys, service, n).value;
      keys[i].service == service && Count(keys[..i], ServiceFn(service)) == n
    decreases |keys|
  {
    var i := NthOf(keys, service, n).value;
    if keys[0].service == service && n == 0 {
      assert keys[..i] == [];
    } else {
      var m := if keys[0].service == service then n - 1 else n;
      var rest := keys[1..];
      assert NthOf(keys, service, n) == Some(NthOf(rest, service, m).value + 1);
      NthOfCount(rest, service, m);
      var before := rest[..i - 1];
      assert keys[..i] == [keys[0]] + before;
      FilterAppend([keys[0]], before, ServiceFn(service));
      FilterSingle(keys[0], ServiceFn(service));
    }
  }

  /**
   * `resetKeyCount`: the `keyIndex`-th key of the service gets a zero count
   * and a fresh stamp; an index outside that service's keys changes nothing.
   */
  function ResetOne(c: Config, service: Service, keyIndex: int, now: int): (r: Config)
  {
    if keyIndex < 0 then c
    else
      match NthOf(c.keys, service, keyIndex)
      case None => c
      case Some(p) => c.(keys := c.keys[p := c.keys[p].(requestCount := 0, lastReset := now)])
  }

  /** Only the chosen key changes, and only its count and stamp; the index never moves. */
  lemma ResetOneLaws(c: Config, service: Service, keyIndex: int, now: int)
    ensures var r := ResetOne(c, service, keyIndex, now);
      && |r.keys| == |c.keys| && r.currentIndex == c.currentIndex
      && (keyIndex < 0 || keyIndex >= Count(c.keys, ServiceFn(service)) ==> r == c)
      && (keyIndex >= 0 && NthOf(c.keys, service, keyIndex).Some? ==>
            var p := NthOf(c.keys, service, keyIndex).value;
            && r.keys[p] == c.keys[p].(requestCount := 0, lastReset := now)
            && c.keys[p].service == service
            && (forall j :: 0 <= j < |c.keys| && j != p ==> r.keys[j] == c.keys[j]))
  {
    if keyIndex >= 0 {
      NthOfPosition(c.keys, service, keyIndex);
      if NthOf(c.keys, service, keyIndex).Some? {
        NthOfCount(c.keys, service, keyIndex);
      }
    }
  }

  /** One row of `getRotationStatus`. */
  datatype KeyStatus = KeyStatus(service: Service, requestCount: nat, remaining: nat, isExhausted: bool)

  datatype RotationStatus = RotationStatus(totalKeys: nat, currentIndex: nat, keysStatus: seq<KeyStatus>)

  /** `getRotationStatus`: a row per key with the requests left before the limit. */
  function Status(c: Config): (r: RotationStatus)
    ensures r.totalKeys == |c.keys| == |r.keysStatus| && r.currentIndex == c.currentIndex
    ensures forall j :: 0 <= j < |c.keys| ==>
      && r.keysStatus[j].service == c.keys[j].service
      && r.keysStatus[j].requestCount == c.keys[j].requestCount
      && r.keysStatus[j].requestCount + r.keysStatus[j].remaining >= MaxRequestsPerIpKey
      && (r.keysStatus[j].isExhausted <==> r.keysStatus[j].remaining == 0)
    ensures forall j :: 0 <= j < |c.keys| ==>
      && (r.keysStatus[j].isExhausted <==> c.keys[j].requestCount >= MaxRequestsPerIpKey)
      && (c.keys[j].requestCount < MaxRequestsPerIpKey ==> r.keysStatus[j].requestCount + r.keysStatus[j].remaining == MaxRequestsPerIpKey)
  {
    RotationStatus(|c.keys|, c.currentIndex,
      seq(|c.keys|, j requires 0 <= j < |c.keys| =>
        var k := c.keys[j];
        KeyStatus(k.service, k.requestCount, Max(0, MaxRequestsPerIpKey - k.requestCount) as nat,
                  k.requestCount >= MaxRequestsPerIpKey)))
  }

  /**
   * The module's cached configuration (`cachedConfig`) together with the two
   * browser-storage entries it is saved to: the configuration itself and the
   * last-reset stamp. The configuration is loaded on first use in the source;
   * here the constructor loads it.
   */
  class KeyRotation {
    var keys: seq<ApiKey>
    var currentIndex: nat
    var savedConfig: Option<Config>
    var savedLastReset: Option<int>
    const inBrowser: bool
    const fallback: bool

    function State(): Config
      reads this
    {
      Config(keys, currentIndex)
    }

    /** At least the ipapi entry, and `currentIndex` names one of the keys. */
    predicate Valid()
      reads this
    {
      |keys| >= 1 && currentIndex < |keys|
    }

    /** `getConfig` on first use: `getStoredState` over the storage entries and the environment. */
    constructor (inBrowser: bool, saved: Option<Config>, lastReset: Option<int>,
                 env: map<nat, string>, fallback: bool, now: int)
      ensures Valid()
      ensures State() == StoredState(inBrowser, saved, lastReset, env, fallback, now).0
      ensures this.inBrowser == inBrowser && this.fallback == fallback && savedConfig == saved
      ensures var stamp := StoredState(inBrowser, saved, lastReset, env, fallback, now).1;
        savedLastReset == if stamp.Some? then stamp else lastReset
    {
      var r := StoredState(inBrowser, saved, lastReset, env, fallback, now);
      keys, currentIndex := r.0.keys, r.0.currentIndex;
      savedConfig := saved;
      savedLastReset := if r.1.Some? then r.1 else lastReset;
      this.inBrowser, this.fallback := inBrowser, fallback;
    }

    /** `saveState`: the configuration is written to browser storage, and nowhere outside a browser. */
    method SaveState()
      modifies this
      ensures savedConfig == (if inBrowser then Some(State()) else old(savedConfig))
      ensures keys == old(keys) && currentIndex == old(currentIndex) && savedLastReset == old(savedLastReset)
    {
      if inBrowser {
        savedConfig := Some(State());
      }
    }

    /** `getNextIPApiKey`, with its loop over the ipgeolocation keys. */
    method GetNextKey() returns (key: Option<ApiKey>)
      requires Valid()
      modifies this
      ensures Valid()
      ensures key == NextKey(old(State()), fallback).key
      ensures State() == old(State()).(currentIndex := NextKey(old(State()), fallback).currentIndex)
      ensures savedConfig == old(savedConfig) && savedLastReset == old(savedLastReset)
    {
      ghost var choice := NextKey(State(), fallback);
      var ipapi := FirstOf(keys, Ipapi);
      if ipapi.Some? && ipapi.value.requestCount < MaxRequestsPerIpKey {
        assert choice == Choice(ipapi, currentIndex);
        return ipapi;
      }
      var ipgeo := Filter(keys, ServiceFn(Ipgeolocation));
      if fallback {
        var available := FindAvailable(ipgeo);
        if available.Some? {
          assert choice == Choice(available, currentIndex);
          return available;
        }
        if |ipgeo| > 0 {
          var next := (currentIndex + 1) % |keys|;
          assert choice == Choice(Some(keys[next]), next);
          currentIndex := next;
          return Some(keys[currentIndex]);
        }
      }
      key := if ipapi.Some? then ipapi else Some(keys[0]);
      assert choice == Choice(key, currentIndex);
    }

    /** `incrementKeyUsage`: count the request and save when the key is configured. */
    method IncrementKeyUsage(service: Service, key: string)
      requires Valid()
      modifies this
      ensures Valid()
      ensures State() == Incremented(old(State()), service, key)
      ensures savedConfig == (if inBrowser && FindKey(old(keys), service, key).Some? then Some(State()) else old(savedConfig))
      ensures savedLastReset == old(savedLastReset)
    {
      IncrementedLaws(State(), service, key);
      var keyIndex := FindKey(keys, service, key);
      if keyIndex.Some? {
        var k := keyIndex.value;
        keys := keys[k := keys[k].(requestCount := keys[k].requestCount + 1)];
        if keys[k].requestCount >= MaxRequestsPerIpKey {
          currentIndex := (k + 1) % |keys|;
        }
        SaveState();
      }
    }

    /** `getRotationStatus`. */
    function GetRotationStatus(): (r: RotationStatus)
      reads this
      requires Valid()
      ensures r.totalKeys >= 1 && r.currentIndex < r.totalKeys
    {
      Status(State())
    }

    /** `resetAllCounts`: the `forEach` over the keys, then index zero, save, and a new stamp in a browser. */
    method ResetAllCounts(now: int)
      requires Valid()
      modifies this
      ensures Valid()
      ensures keys == ResetAll(old(keys), now) && currentIndex == 0
      ensures savedConfig == (if inBrowser then Some(State()) else old(savedConfig))
      ensures savedLastReset == (if inBrowser then Some(now) else old(savedLastReset))
    {
      ghost var before := keys;
      for i := 0 to |keys|
        invariant |keys| == |before|
        invariant forall j :: 0 <= j < i ==> keys[j] == before[j].(requestCount := 0, lastReset := now)
        invariant forall j :: i <= j < |keys| ==> keys[j] == before[j]
        invariant savedConfig == old(savedConfig) && savedLastReset == old(savedLastReset)
      {
        keys := keys[i := keys[i].(requestCount := 0, lastReset := now)];
      }
      currentIndex := 0;
      SaveState();
      if inBrowser {
        savedLastReset := Some(now);
      }
    }

    /** `resetKeyCount`: reset the `keyIndex`-th key of the service and save; nothing otherwise. */
    method ResetKeyCount(service: Service, keyIndex: int, now: int)
      requires Valid()
      modifies this
      ensures Valid()
      ensures State() == ResetOne(old(State()), service, keyIndex, now)
      ensures savedConfig == (if inBrowser && 0 <= keyIndex < Count(old(keys), ServiceFn(service)) then Some(State()) else old(savedConfig))
      ensures savedLastReset == old(savedLastReset)
    {
      if keyIndex >= 0 {
        NthOfPosition(keys, service, keyIndex);
        var position := NthOf(keys, service, keyIndex);
        if position.Some? {
          var p := position.value;
          keys := keys[p := keys[p].(requestCount := 0, lastReset := now)];
          SaveState();
        }
      }
    }
  }
}
