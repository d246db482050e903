/**
 * The key-value store the token code talks to (redis/redis.go), reduced to
 * its contract: a package-level client that is created at most once, and a
 * server holding string values, some of them with a time to live.
 *
 * `StoreState` is the abstract state and the functions below say what each
 * command does to it; the class `Store` is the mutable stand-in that the
 * token methods call step by step, and each of its methods is proved to
 * have exactly the effect of the corresponding function.
 */
module Redis {

  datatype StoreState = StoreState(
    connected: bool,            // the package-level client pointer is non-nil
    up: bool,                   // the server answers commands
    kv: map<string, string>,    // stored values
    ttl: map<string, int>)      // remaining seconds of the keys that have an expiry
  {
    /** Only stored keys have an expiry, and every expiry is still in the future. */
    predicate Valid() {
      ttl.Keys <= kv.Keys && forall k :: k in ttl ==> ttl[k] > 0
    }
  }

  /** What `GetValue` hands back: the value, and whether it also returned an error. */
  datatype GetReply = GetReply(value: string, failed: bool)

  /** `SetRedisClient`: creates the client if there is none; it reports `true` only then. */
  function Connect(s: StoreState): (r: StoreState)
    ensures r.connected && r.up == s.up
    ensures r.kv == s.kv && r.ttl == s.ttl
    ensures s.Valid() ==> r.Valid()
  {
    s.(connected := true)
  }

  /**
   * `GetValue`: a missing key (redis.Nil) and an unreachable server are both
   * errors, and every error comes with the empty string.
   */
  function Get(s: StoreState, key: string): (r: GetReply)
    requires s.connected
    ensures r.failed <==> !(s.up && key in s.kv)
    ensures r.failed ==> r.value == ""
    ensures !r.failed ==> key in s.kv && r.value == s.kv[key]
  {
    if s.up && key in s.kv then GetReply(s.kv[key], false) else GetReply("", true)
  }

  /**
   * `SetValue(key, value, seconds)`: errors are swallowed, so an unreachable
   * server leaves everything as it was.  A non-positive expiration stores
   * the key without an expiry, as the go-redis `Set` command does.
   */
  function Put(s: StoreState, key: string, value: string, seconds: int): (r: StoreState)
    requires s.connected
    ensures r.connected == s.connected && r.up == s.up
    ensures !s.up ==> r == s
    ensures s.up ==> key in r.kv && r.kv[key] == value && (key in r.ttl <==> seconds > 0)
    ensures s.up && seconds > 0 ==> r.ttl[key] == seconds
    ensures r.kv.Keys <= s.kv.Keys + {key}
    ensures forall k :: k in s.kv && k != key ==> k in r.kv && r.kv[k] == s.kv[k]
    ensures forall k :: k != key ==> (k in r.ttl <==> k in s.ttl) && (k in r.ttl ==> r.ttl[k] == s.ttl[k])
    ensures s.Valid() ==> r.Valid()
  {
    if !s.up then s
    else s.(kv := s.kv[key := value],
            ttl := if seconds > 0 then s.ttl[key := seconds] else s.ttl - {key})
  }

  /** `DeleteValue(key)`: removes the key (and its expiry) when the server answers. */
  function Delete(s: StoreState, key: string): (r: StoreState)
    requires s.connected
    ensures r.connected == s.connected && r.up == s.up
    ensures !s.up ==> r == s
    ensures s.up ==> r.kv.Keys == s.kv.Keys - {key} && key !in r.ttl
    ensures forall k :: k in r.kv ==> r.kv[k] == s.kv[k]
    ensures forall k :: k != key ==> (k in r.ttl <==> k in s.ttl) && (k in r.ttl ==> r.ttl[k] == s.ttl[k])
    ensures s.Valid() ==> r.Valid()
  {
    if !s.up then s else s.(kv := s.kv - {key}, ttl := s.ttl - {key})
  }

  /** The passing of `seconds`: the server drops every key whose expiry has run out. */
  function Elapse(s: StoreState, seconds: nat): StoreState {
    s.(kv := map k | k in s.kv && (k !in s.ttl || s.ttl[k] > seconds) :: s.kv[k],
       ttl := map k | k in s.ttl && s.ttl[k] > seconds :: s.ttl[k] - seconds)
  }

  /** Every command keeps the store consistent. */
  lemma CommandsPreserveValid(s: StoreState, key: string, value: string, seconds: int, elapsed: nat)
    requires s.Valid()
    ensures Connect(s).Valid()
    ensures s.connected ==> Put(s, key, value, seconds).Valid() && Delete(s, key).Valid()
    ensures Elapse(s, elapsed).Valid()
  {
  }

  /** A key stored with a positive expiry survives exactly as long as that expiry. */
  lemma ExpiryIsExact(s: StoreState, key: string, value: string, seconds: int, elapsed: nat)
    requires s.connected && s.up
    ensures var e := Elapse(Put(s, key, value, seconds), elapsed);
      (key in e.kv <==> seconds <= 0 || elapsed < seconds) &&
      (key in e.kv ==> e.kv[key] == value)
  {
  }

  lemma ElapseKeepsOtherKeysOrDrops(s: StoreState, elapsed: nat)
    ensures Elapse(s, elapsed).kv.Keys <= s.kv.Keys
    ensures forall k :: k in Elapse(s, elapsed).kv ==> Elapse(s, elapsed).kv[k] == s.kv[k]
    ensures forall k :: k in s.kv && k !in s.ttl ==> k in Elapse(s, elapsed).kv
  {
  }

  /** The store behind the package-level client; every method keeps `State().Valid()`. */
  class Store {
    var connected: bool
    var up: bool
    var kv: map<string, string>
    var ttl: map<string, int>

    function State(): StoreState
      reads this
    {
      StoreState(connected, up, kv, ttl)
    }

    /** A process that has not created its client yet, talking to an empty, reachable server. */
    constructor ()
      ensures State() == StoreState(false, true, map[], map[])
      ensures State().Valid()
    {
      connected, up := false, true;
      kv, ttl := map[], map[];
    }

    /** SetRedisClient (redis/redis.go:46-68). */
    method SetRedisClient() returns (created: bool)
      requires State().Valid()
      modifies this
      ensures State().Valid()
      ensures created == !old(connected)
      ensures State() == Connect(old(State()))
    {
      if connected {
        return false;
      }
      connected := true;
      return true;
    }

    /** SetValue (redis/redis.go:71-82): the error of the Set command is recovered and dropped. */
    method SetValue(key: string, value: string, exp: int)
      requires connected && State().Valid()
      modifies this
      ensures State().Valid()
      ensures State() == Put(old(State()), key, value, exp)
    {
      if up {
        kv := kv[key := value];
        if exp > 0 {
          ttl := ttl[key := exp];
        } else {
          ttl := ttl - {key};
        }
      }
    }

    /** GetValue (redis/redis.go:85-91). */
    method GetValue(key: string) returns (value: string, failed: bool)
      requires connected
      ensures GetReply(value, failed) == Get(State(), key)
    {
      if up && key in kv {
        return kv[key], false;
      }
      return "", true;
    }

    /** DeleteValue: called by the token code but not defined in redis/redis.go; modelled as removal. */
    method DeleteValue(key: string)
      requires connected && State().Valid()
      modifies this
      ensures State().Valid()
      ensures State() == Delete(old(State()), key)
    {
      if up {
        kv := kv - {key};
        ttl := ttl - {key};
      }
    }

    /** The server's clock advancing by `seconds`. */
    method Expire(seconds: nat)
      requires State().Valid()
      modifies this
      ensures State().Valid()
      ensures State() == Elapse(old(State()), seconds)
    {
      kv := map k | k in kv && (k !in ttl || ttl[k] > seconds) :: kv[k];
      ttl := map k | k in ttl && ttl[k] > seconds :: ttl[k] - seconds;
    }

    /** The network becoming reachable or unreachable. */
    method SetAvailable(reachable: bool)
      requires State().Valid()
      modifies this
      ensures State().Valid()
      ensures State() == old(State()).(up := reachable)
    {
      up := reachable;
    }
  }
}
