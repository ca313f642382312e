/** The agent's two name caches: entries expire, and one of the caches keeps no negative answers. */
module TtlCache {
  import opened Common
  import opened Widths

  datatype Entry<V> = Entry(value: V, expiresAtNs: u64)

  type Cache<V> = map<u64, Entry<V>>

  predicate Hit<V>(cache: Cache<V>, key: u64, nowNs: u64) { key in cache && nowNs < cache[key].expiresAtNs }

  /** `answer` is what resolving the name gives, if it is resolved; `storedNs` the clock when it is stored. */
  function Result<V>(cache: Cache<V>, key: u64, nowNs: u64, answer: Option<V>): Option<V> {
    if Hit(cache, key, nowNs) then Some(cache[key].value) else answer
  }

  function After<V>(cache: Cache<V>, ttlNs: u64, key: u64, nowNs: u64, answer: Option<V>, storedNs: u64): Cache<V> {
    if Hit(cache, key, nowNs) then cache
    else match answer
      case Some(v) => cache[key := Entry(v, Add64(storedNs, ttlNs))]
      case None => cache - {key}
  }

  /** Caches every answer; for a process outside any container that is the empty name. */
  class DockerMapper {
    const cacheTTLSeconds: int
    var cgroupToNameCache: Cache<string>

    constructor (cacheTTLSeconds: int)
      ensures this.cacheTTLSeconds == cacheTTLSeconds && cgroupToNameCache == map[]
    {
      this.cacheTTLSeconds := cacheTTLSeconds;
      cgroupToNameCache := map[];
    }

    method ClearCache()
      modifies this
      ensures cgroupToNameCache == map[]
    {
      cgroupToNameCache := map[];
    }

    /** `hash` is the container hash found for the process, empty if none; `dockerName` what Docker calls it. */
    method GetContainerName(cgroupId: u64, nowNs: u64, hash: string, dockerName: string, storedNs: u64) returns (name: string)
      modifies this
      ensures var resolved := if hash == "" then "" else dockerName;
              && Some(name) == Result(old(cgroupToNameCache), cgroupId, nowNs, Some(resolved))
              && cgroupToNameCache == After(old(cgroupToNameCache), SecToNs(cacheTTLSeconds), cgroupId, nowNs, Some(resolved), storedNs)
    {
      if cgroupId in cgroupToNameCache {
        if nowNs < cgroupToNameCache[cgroupId].expiresAtNs {
          return cgroupToNameCache[cgroupId].value;
        }
        cgroupToNameCache := cgroupToNameCache - {cgroupId};
      }
      if hash == "" {
        cgroupToNameCache := cgroupToNameCache[cgroupId := Entry("", Add64(storedNs, SecToNs(cacheTTLSeconds)))];
        return "";
      }
      cgroupToNameCache := cgroupToNameCache[cgroupId := Entry(dockerName, Add64(storedNs, SecToNs(cacheTTLSeconds)))];
      name := dockerName;
    }
  }

  datatype ContainerInfo = ContainerInfo(id: string, name: string, podName: string, podNamespace: string)

  function ChooseName(info: Option<ContainerInfo>, preferPodName: bool): string {
    match info
    case None => ""
    case Some(i) =>
      if preferPodName && i.podName != "" then
        (if i.podNamespace != "" && i.podNamespace != "default" then i.podNamespace + "/" + i.podName else i.podName)
      else if i.name != "" then i.name
      else i.id
  }

  /** Caches only containers: a process outside any is looked up again each time. */
  class ContainerMapper {
    const cacheTTLSeconds: int
    const preferPodName: bool
    var cache: Cache<ContainerInfo>

    constructor (cacheTTLSeconds: int, preferPodName: bool)
      ensures this.cacheTTLSeconds == cacheTTLSeconds && this.preferPodName == preferPodName && cache == map[]
    {
      this.cacheTTLSeconds, this.preferPodName := cacheTTLSeconds, preferPodName;
      cache := map[];
    }

    method ClearCache()
      modifies this
      ensures cache == map[]
    {
      cache := map[];
    }

    method GetContainerInfo(cgroupId: u64, nowNs: u64, resolved: Option<ContainerInfo>, storedNs: u64) returns (info: Option<ContainerInfo>)
      modifies this
      ensures info == Result(old(cache), cgroupId, nowNs, resolved)
      ensures cache == After(old(cache), SecToNs(cacheTTLSeconds), cgroupId, nowNs, resolved, storedNs)
      ensures info.None? <==> cgroupId !in cache
    {
      if cgroupId in cache {
        if nowNs < cache[cgroupId].expiresAtNs {
          return Some(cache[cgroupId].value);
        }
        cache := cache - {cgroupId};
      }
      if resolved.None? {
        assert cache == old(cache) - {cgroupId};
        return None;
      }
      cache := cache[cgroupId := Entry(resolved.value, Add64(storedNs, SecToNs(cacheTTLSeconds)))];
      info := resolved;
    }

    method GetContainerName(cgroupId: u64, nowNs: u64, resolved: Option<ContainerInfo>, storedNs: u64) returns (name: string)
      modifies this
      ensures name == ChooseName(Result(old(cache), cgroupId, nowNs, resolved), preferPodName)
      ensures cache == After(old(cache), SecToNs(cacheTTLSeconds), cgroupId, nowNs, resolved, storedNs)
    {
      var info := GetContainerInfo(cgroupId, nowNs, resolved, storedNs);
      name := ChooseName(info, preferPodName);
    }
  }

  // ---- runs ----

  datatype Op<V> = Get(key: u64, nowNs: u64, answer: Option<V>, storedNs: u64) | Clear

  function Run<V>(ttlNs: u64, ops: seq<Op<V>>): Cache<V> {
    if ops == [] then map[]
    else
      var n := |ops| - 1;
      match ops[n]
      case Get(key, nowNs, answer, storedNs) => After(Run(ttlNs, ops[..n]), ttlNs, key, nowNs, answer, storedNs)
      case Clear => map[]
  }

  /** The `i`-th operation resolves a name instead of finding it in the cache. */
  predicate Resolves<V>(ttlNs: u64, ops: seq<Op<V>>, i: nat) {
    i < |ops| && ops[i].Get? && !Hit(Run(ttlNs, ops[..i]), ops[i].key, ops[i].nowNs)
  }

  /** A steady clock: its readings fit 63 bits and never decrease from one reading to the next. */
  predicate Steady<V>(ops: seq<Op<V>>) {
    && (forall i :: 0 <= i < |ops| && ops[i].Get? ==> ops[i].nowNs <= ops[i].storedNs < 0x8000_0000_0000_0000)
    && (forall i, j :: 0 <= i < j < |ops| && ops[i].Get? && ops[j].Get? ==> ops[i].storedNs <= ops[j].nowNs)
  }

  ghost predicate Kept<V>(ops: seq<Op<V>>, i: nat, n: nat) { forall k :: i < k < n && k < |ops| ==> ops[k] != Clear }

  /** `ops[i]` resolved `v` for `key`, and nothing was cleared since, up to `ops[n]`. */
  ghost predicate Stored<V>(ttlNs: u64, ops: seq<Op<V>>, key: u64, i: nat, n: nat, v: V) {
    Resolves(ttlNs, ops, i) && ops[i].key == key && ops[i].answer == Some(v) && i < n && Kept(ops, i, n)
  }

  lemma NoWrap(ttlSec: int, storedNs: u64)
    requires 0 <= ttlSec <= 0x7fff_ffff && storedNs < 0x8000_0000_0000_0000
    ensures Add64(storedNs, SecToNs(ttlSec)) == storedNs + ttlSec * NS_PER_SEC
  {
    SecToNsExact(ttlSec);
  }

  /** Every entry was stored by a resolution for its key, and expires one time-to-live later. */
  lemma {:induction false} EntryHasSource<V>(ttlNs: u64, ops: seq<Op<V>>, key: u64) returns (i: nat)
    requires key in Run(ttlNs, ops)
    ensures var e := Run(ttlNs, ops)[key];
            Stored(ttlNs, ops, key, i, |ops|, e.value) && e.expiresAtNs == Add64(ops[i].storedNs, ttlNs)
  {
    var n := |ops| - 1;
    if Resolves(ttlNs, ops, n) && ops[n].key == key {
      i := n;
    } else {
      i := EntryHasSource(ttlNs, ops[..n], key);
      assert ops[..n][..i] == ops[..i];
    }
  }

  /**
   * Freshness. Whatever a lookup returns from the cache was resolved for the same cgroup and stored less than one
   * time-to-live earlier, with no clearing in between; anything else it returns was resolved by itself.
   */
  lemma AnswersAreFresh<V>(ttlSec: int, ops: seq<Op<V>>, n: nat) returns (i: nat)
    requires 0 <= ttlSec <= 0x7fff_ffff && Steady(ops) && n < |ops| && ops[n].Get?
    ensures var ttlNs := SecToNs(ttlSec); var r := Result(Run(ttlNs, ops[..n]), ops[n].key, ops[n].nowNs, ops[n].answer);
            if Resolves(ttlNs, ops, n) then r == ops[n].answer
            else r.Some? && Stored(ttlNs, ops, ops[n].key, i, n, r.value)
                 && ops[i].storedNs <= ops[n].nowNs < ops[i].storedNs + ttlSec * NS_PER_SEC
  {
    var ttlNs := SecToNs(ttlSec);
    i := 0;
    if !Resolves(ttlNs, ops, n) {
      i := EntryHasSource(ttlNs, ops[..n], ops[n].key);
      assert ops[..n][..i] == ops[..i] && ops[..n][i] == ops[i];
      NoWrap(ttlSec, ops[i].storedNs);
    }
  }

  /**
   * The cache is transparent. If resolving takes at most `latency`, and the true answer has not changed during the
   * last time-to-live plus that, a lookup returns what resolving now would.
   */
  lemma CacheIsTransparent<V>(ttlSec: int, ops: seq<Op<V>>, n: nat, truth: (u64, int) -> Option<V>, at: seq<int>, latency: nat)
    requires 0 <= ttlSec <= 0x7fff_ffff && Steady(ops) && n < |ops| && ops[n].Get? && |at| == |ops|
    requires forall i :: 0 <= i < |ops| && ops[i].Get? ==>
               ops[i].nowNs <= at[i] <= ops[i].storedNs <= at[i] + latency && ops[i].answer == truth(ops[i].key, at[i])
    requires forall t :: ops[n].nowNs - ttlSec * NS_PER_SEC - latency < t <= at[n] ==> truth(ops[n].key, t) == truth(ops[n].key, at[n])
    ensures Result(Run(SecToNs(ttlSec), ops[..n]), ops[n].key, ops[n].nowNs, ops[n].answer) == truth(ops[n].key, at[n])
  {
    var i := AnswersAreFresh(ttlSec, ops, n);
    if !Resolves(SecToNs(ttlSec), ops, n) {
      assert truth(ops[n].key, at[i]) == truth(ops[n].key, at[n]);
    }
  }

  /** Once stored, an answer is in the cache until it has expired. */
  lemma {:induction false} StoredUntilExpired<V>(ttlNs: u64, ops: seq<Op<V>>, key: u64, i: nat, n: nat, v: V)
    requires Steady(ops) && Stored(ttlNs, ops, key, i, n, v) && n <= |ops|
    requires forall k :: i < k < n && ops[k].Get? ==> ops[k].nowNs < Add64(ops[i].storedNs, ttlNs)
    ensures key in Run(ttlNs, ops[..n]) && Run(ttlNs, ops[..n])[key] == Entry(v, Add64(ops[i].storedNs, ttlNs))
    decreases n
  {
    assert ops[..n][..n - 1] == ops[..n - 1];
    if i < n - 1 {
      StoredUntilExpired(ttlNs, ops, key, i, n - 1, v);
      assert ops[n - 1] != Clear;
    }
  }

  /**
   * Economy. In a sequential run, once a name has been resolved for a cgroup, it is resolved again no sooner than
   * one time-to-live after it was stored, unless the cache is cleared. DockerMapper has an answer for every
   * process, so there this holds of every resolution; ContainerMapper stores none for a process outside any.
   */
  lemma ResolutionsAreSpaced<V>(ttlSec: int, ops: seq<Op<V>>, key: u64, i: nat, j: nat, v: V)
    requires 0 <= ttlSec <= 0x7fff_ffff && Steady(ops)
    requires Stored(SecToNs(ttlSec), ops, key, i, j, v) && Resolves(SecToNs(ttlSec), ops, j) && ops[j].key == key
    ensures ops[i].storedNs + ttlSec * NS_PER_SEC <= ops[j].nowNs
  {
    NoWrap(ttlSec, ops[i].storedNs);
    if ops[j].nowNs < ops[i].storedNs + ttlSec * NS_PER_SEC {
      StoredUntilExpired(SecToNs(ttlSec), ops, key, i, j, v);
    }
  }

  // ---- which name is shown ----

  /** A pod's name, after its namespace unless that is empty or the default one; else the container's name, else its id. */
  lemma NameShown(i: ContainerInfo, prefer: bool)
    ensures ChooseName(None, prefer) == ""
    ensures var name := ChooseName(Some(i), prefer);
            && (prefer && i.podName != "" && i.podNamespace in {"", "default"} ==> name == i.podName)
            && (prefer && i.podName != "" && i.podNamespace !in {"", "default"} ==> name == i.podNamespace + "/" + i.podName)
            && (!prefer || i.podName == "" ==> name == if i.name == "" then i.id else i.name)
  {
  }

  lemma {:induction false} SlashSplits(a: string, b: string, c: string, d: string)
    requires '/' !in a && '/' !in c && a + "/" + b == c + "/" + d
    ensures a == c && b == d
  {
    var s := a + "/" + b;
    assert s == c + "/" + d && s[|a|] == '/' && s[|c|] == '/';
    assert forall i :: 0 <= i < |a| ==> s[i] == a[i] && a[i] in a;
    assert forall i :: 0 <= i < |c| ==> s[i] == c[i] && c[i] in c;
    assert s[..|a|] == a && s[..|c|] == c && s[|a| + 1..] == b && s[|c| + 1..] == d;
  }

  /** Two pods are shown alike only if they are of the same name and namespace, the default one being as good as none. */
  lemma PodNamesAreDistinct(i: ContainerInfo, j: ContainerInfo)
    requires i.podName != "" && j.podName != "" && '/' !in i.podName && '/' !in j.podName
    requires '/' !in i.podNamespace && '/' !in j.podNamespace
    ensures ChooseName(Some(i), true) == ChooseName(Some(j), true) <==>
            i.podName == j.podName && (i.podNamespace == j.podNamespace || (i.podNamespace in {"", "default"} && j.podNamespace in {"", "default"}))
  {
    var ni, nj := i.podNamespace + "/" + i.podName, j.podNamespace + "/" + j.podName;
    assert ni[|i.podNamespace|] == '/' && nj[|j.podNamespace|] == '/';
    assert '/' in ni && '/' in nj;
    if ni == nj { SlashSplits(i.podNamespace, i.podName, j.podNamespace, j.podName); }
  }
}
