/** The bounded memo wrapper: results are cached under the joined arguments, and beyond 1000
    keys the one that was used longest ago is dropped.

    The cache is a plain object, and two keys are not like the others in such an object: the
    wrapper looks keys up by calling the object's own `hasOwnProperty`, so a result stored
    under that name takes the place of the lookup; and a store to `__proto__` changes the
    prototype of the object and makes no key. */
module Memo {

  const LIMIT: nat := 1000
  const SEPARATOR: string := ['\U{2400}']
  const LOOKUP: string := "hasOwnProperty"
  const PROTO: string := "__proto__"

  /** The key of a call: its arguments joined. */
  function Join(args: seq<string>): string {
    if args == [] then "" else if |args| == 1 then args[0] else args[0] + SEPARATOR + Join(args[1..])
  }

  // ---------------------------------------------------------------- order of last use

  function Without(keys: seq<string>, key: string): (r: seq<string>)
    ensures forall k :: k in r <==> k in keys && k != key
  {
    if keys == [] then []
    else if keys[0] == key then Without(keys[1..], key)
    else [keys[0]] + Without(keys[1..], key)
  }

  /** `key` used once more: it moves to the end, but `__proto__` is listed anew each time. */
  function Renew(keys: seq<string>, key: string): (r: seq<string>)
    ensures forall k :: k in r <==> k in keys || k == key
  {
    (if key == PROTO then keys else Without(keys, key)) + [key]
  }

  /** The keys of a history of calls, each once but for `__proto__`, the one used longest ago
      first. */
  function Recency(calls: seq<seq<string>>): seq<string> {
    if calls == [] then [] else Renew(Recency(calls[..|calls| - 1]), Join(calls[|calls| - 1]))
  }

  function Newest(keys: seq<string>): (r: seq<string>)
    ensures |r| <= LIMIT
  {
    if |keys| <= LIMIT then keys else keys[|keys| - LIMIT..]
  }

  /** Only `__proto__` is listed more than once. */
  ghost predicate NoRepeats(keys: seq<string>) {
    forall i, j :: 0 <= i < j < |keys| && keys[i] == keys[j] ==> keys[i] == PROTO
  }

  lemma {:induction false} WithoutNoRepeats(keys: seq<string>, key: string)
    requires NoRepeats(keys)
    ensures NoRepeats(Without(keys, key))
  {
    if keys != [] {
      WithoutNoRepeats(keys[1..], key);
      assert keys[0] != PROTO ==> keys[0] !in keys[1..];
    }
  }

  lemma {:induction false} RecencyNoRepeats(calls: seq<seq<string>>)
    ensures NoRepeats(Recency(calls))
  {
    if calls != [] {
      var init, key := calls[..|calls| - 1], Join(calls[|calls| - 1]);
      RecencyNoRepeats(init);
      WithoutNoRepeats(Recency(init), key);
      assert key !in Without(Recency(init), key);
    }
  }

  lemma {:induction false} RecencyHasAll(calls: seq<seq<string>>, key: string)
    ensures key in Recency(calls) <==> exists k :: 0 <= k < |calls| && Join(calls[k]) == key
  {
    hide Renew, Join;
    if calls != [] {
      var n := |calls| - 1;
      RecencyHasAll(calls[..n], key);
      assert forall k :: 0 <= k < n ==> calls[..n][k] == calls[k];
      assert key in Recency(calls) <==> key in Recency(calls[..n]) || key == Join(calls[n]);
    }
  }

  lemma {:induction false} WithoutAbsent(keys: seq<string>, key: string)
    requires key !in keys
    ensures Without(keys, key) == keys
  {
    if keys != [] {
      assert key !in keys[1..] by { assert forall k :: k in keys[1..] ==> k in keys; }
      WithoutAbsent(keys[1..], key);
    }
  }

  lemma {:induction false} WithoutAt(keys: seq<string>, i: nat)
    requires NoRepeats(keys) && i < |keys| && keys[i] != PROTO
    ensures Without(keys, keys[i]) == keys[..i] + keys[i + 1..]
  {
    if i == 0 {
      WithoutAbsent(keys[1..], keys[0]);
    } else {
      WithoutAt(keys[1..], i - 1);
      assert keys[1..][..i - 1] == keys[..i][1..];
      assert keys[1..][i..] == keys[i + 1..];
      assert keys[..i] == [keys[0]] + keys[..i][1..];
    }
  }

  lemma {:induction false} UsedAgain(all: seq<string>, i: nat, cut: nat)
    requires NoRepeats(all) && cut <= i < |all| && all[i] != PROTO
    ensures |Without(all, all[i])| == |all| - 1
    ensures (Without(all, all[i]) + [all[i]])[cut..] == Without(all[cut..], all[i]) + [all[i]]
  {
    WithoutAt(all, i);
    var kept := all[cut..];
    assert kept[i - cut] == all[i];
    WithoutAt(kept, i - cut);
    assert kept[..i - cut] == all[..i][cut..];
    assert kept[i - cut + 1..] == all[i + 1..];
    assert (all[..i] + all[i + 1..] + [all[i]])[cut..] == all[..i][cut..] + all[i + 1..] + [all[i]];
  }

  lemma {:induction false} DroppedBefore(all: seq<string>, i: nat, cut: nat)
    requires NoRepeats(all) && i < cut < |all| && all[i] != PROTO
    ensures |Without(all, all[i])| == |all| - 1
    ensures (Without(all, all[i]) + [all[i]])[cut..] == all[cut..][1..] + [all[i]]
  {
    WithoutAt(all, i);
    assert all[cut..][1..] == all[cut + 1..];
    assert (all[..i] + all[i + 1..] + [all[i]])[cut..] == all[cut + 1..] + [all[i]];
  }

  lemma {:induction false} NewestAgain(all: seq<string>, i: nat)
    requires NoRepeats(all) && i < |all| && all[i] != PROTO
    ensures var kept := Newest(all);
            var next := Newest(Without(all, all[i]) + [all[i]]);
            if all[i] in kept then next == Without(kept, all[i]) + [all[i]]
            else |kept| >= LIMIT && next == kept[1..] + [all[i]]
  {
    var kept := Newest(all);
    var cut := |all| - |kept|;
    hide Without;
    assert kept == all[cut..];
    if i >= cut {
      UsedAgain(all, i, cut);
      assert kept[i - cut] == all[i];
    } else {
      DroppedBefore(all, i, cut);
      assert all[i] !in kept;
    }
  }

  lemma {:induction false} NewestMore(all: seq<string>, key: string)
    ensures var kept := Newest(all);
            Newest(all + [key]) == if |kept| >= LIMIT then kept[1..] + [key] else kept + [key]
  {
    if |all| >= LIMIT {
      var cut := |all| - LIMIT;
      assert Newest(all) == all[cut..];
      assert (all + [key])[cut + 1..] == all[cut..][1..] + [key];
    }
  }

  /** Keeping only the newest keys commutes with one more call. */
  lemma {:induction false} NewestStep(all: seq<string>, key: string)
    requires NoRepeats(all)
    ensures var kept := Newest(all);
            var next := Newest(Renew(all, key));
            if key in kept && key != PROTO then next == Without(kept, key) + [key]
            else if |kept| >= LIMIT then next == kept[1..] + [key]
            else next == kept + [key]
  {
    hide Without, Newest, NoRepeats;
    if key in all && key != PROTO {
      var i :| 0 <= i < |all| && all[i] == key;
      NewestAgain(all, i);
    } else {
      if key != PROTO {
        WithoutAbsent(all, key);
        NewestWithin(all);
      }
      NewestMore(all, key);
    }
  }

  lemma {:induction false} NewestWithin(all: seq<string>)
    ensures forall k :: k in Newest(all) ==> k in all
  {
  }

  // ---------------------------------------------------------------- the wrapper

  /** What a store to `__proto__` depends on: an object or array becomes the prototype, and the
      built-in lookup is still found through it; `null` leaves no prototype and no lookup;
      anything else is ignored. */
  datatype Shape = Ordinary | Null | Primitive

  /** The state of the wrapper: cached results, the keys in order of last use, and whether
      the object's `hasOwnProperty` is still the built-in one. */
  datatype Cache<V> = Cache(cache: map<string, V>, count: seq<string>, works: bool)

  /** A result; or what the object inherits under `__proto__` instead of the result; or an
      error, for a lookup that is no longer a function. */
  datatype Outcome<V> = Returned(value: V) | Inherited | Thrown

  /** One call, with the result it hands out before post-processing. */
  function Call<V>(f: seq<string> -> V, shape: V -> Shape, st: Cache<V>, args: seq<string>): (r: (Cache<V>, Outcome<V>)) {
    var key := Join(args);
    if !st.works then (st, Thrown)
    else if key in st.cache then (st.(count := Without(st.count, key) + [key]), Returned(st.cache[key]))
    else
      var room := if |st.count| >= LIMIT then Cache(st.cache - {st.count[0]}, st.count[1..], true) else st;
      var v := f(args);
      if key == PROTO then
        (room.(count := room.count + [key], works := !shape(v).Null?),
         if shape(v).Ordinary? then Returned(v) else Inherited)
      else (Cache(room.cache[key := v], room.count + [key], key != LOOKUP), Returned(v))
  }

  function After<V>(f: seq<string> -> V, shape: V -> Shape, calls: seq<seq<string>>): Cache<V> {
    if calls == [] then Cache(map[], [], true)
    else Call(f, shape, After(f, shape, calls[..|calls| - 1]), calls[|calls| - 1]).0
  }

  // ---------------------------------------------------------------- when the lookup breaks

  /** A call that takes the lookup away from all later calls. */
  predicate Spoils<V>(f: seq<string> -> V, shape: V -> Shape, args: seq<string>) {
    Join(args) == "hasOwnProperty" || (Join(args) == "__proto__" && shape(f(args)).Null?)
  }

  predicate Unspoilt<V>(f: seq<string> -> V, shape: V -> Shape, calls: seq<seq<string>>) {
    forall k :: 0 <= k < |calls| ==> !Spoils(f, shape, calls[k])
  }

  lemma {:induction false} UnspoiltPrefix<V>(f: seq<string> -> V, shape: V -> Shape, calls: seq<seq<string>>)
    requires calls != []
    ensures var n := |calls| - 1;
            Unspoilt(f, shape, calls) <==> Unspoilt(f, shape, calls[..n]) && !Spoils(f, shape, calls[n])
  {
    var n := |calls| - 1;
    assert forall k :: 0 <= k < n ==> calls[..n][k] == calls[k];
  }

  /** Neither special key is ever a key of the cache while the lookup works. */
  lemma {:induction false} NeverCached<V>(f: seq<string> -> V, shape: V -> Shape, calls: seq<seq<string>>)
    ensures var st := After(f, shape, calls);
            PROTO !in st.cache && (st.works ==> LOOKUP !in st.cache)
  {
    if calls != [] {
      NeverCached(f, shape, calls[..|calls| - 1]);
    }
  }

  /** The wrapper works exactly as long as no call has spoilt the lookup: afterwards every call
      throws, whatever its arguments. */
  lemma {:induction false} WorksExactlyWhen<V>(f: seq<string> -> V, shape: V -> Shape, calls: seq<seq<string>>)
    ensures After(f, shape, calls).works <==> Unspoilt(f, shape, calls)
    ensures forall args :: Call(f, shape, After(f, shape, calls), args).1 == Thrown <==> !Unspoilt(f, shape, calls)
  {
    if calls != [] {
      var init, args := calls[..|calls| - 1], calls[|calls| - 1];
      WorksExactlyWhen(f, shape, init);
      NeverCached(f, shape, init);
      UnspoiltPrefix(f, shape, calls);
    }
  }

  // ---------------------------------------------------------------- what is kept

  /** The calls that count: up to and including the first that spoils the lookup. */
  function Effective<V>(f: seq<string> -> V, shape: V -> Shape, calls: seq<seq<string>>): seq<seq<string>> {
    if calls == [] then []
    else
      var n := |calls| - 1;
      if Unspoilt(f, shape, calls[..n]) then calls else Effective(f, shape, calls[..n])
  }

  lemma {:induction false} OnlyEffectiveCount<V>(f: seq<string> -> V, shape: V -> Shape, calls: seq<seq<string>>)
    ensures After(f, shape, calls) == After(f, shape, Effective(f, shape, calls))
    ensures Unspoilt(f, shape, calls) ==> Effective(f, shape, calls) == calls
    ensures var e := Effective(f, shape, calls);
            e <= calls && (e != [] ==> Unspoilt(f, shape, e[..|e| - 1]))
  {
    if calls != [] {
      var init := calls[..|calls| - 1];
      OnlyEffectiveCount(f, shape, init);
      WorksExactlyWhen(f, shape, init);
      UnspoiltPrefix(f, shape, calls);
    }
  }

  /** The state after calls none of which, but the last, spoils the lookup. */
  ghost predicate Kept<V>(st: Cache<V>, calls: seq<seq<string>>) {
    && st.count == Newest(Recency(calls)) && NoRepeats(st.count)
    && st.cache.Keys == (set k | k in st.count && k != PROTO)
  }

  lemma {:induction false} KeptSoFar<V>(f: seq<string> -> V, shape: V -> Shape, calls: seq<seq<string>>)
    requires calls != [] ==> Unspoilt(f, shape, calls[..|calls| - 1])
    ensures Kept(After(f, shape, calls), calls)
  {
    if calls != [] {
      var init, args := calls[..|calls| - 1], calls[|calls| - 1];
      if init != [] { UnspoiltPrefix(f, shape, init); }
      KeptSoFar(f, shape, init);
      WorksExactlyWhen(f, shape, init);
      RecencyNoRepeats(init);
      RecencyNoRepeats(calls);
      NewestNoRepeats(Recency(calls));
      StepCount(f, shape, After(f, shape, init), args, Recency(init));
      StepKeys(f, shape, After(f, shape, init), args);
    }
  }

  /** The cached keys are exactly the 1000 last used by the calls that count, in that order;
      only `__proto__`, which is never cached, takes a place of its own each time. */
  lemma {:induction false} KeepsTheNewest<V>(f: seq<string> -> V, shape: V -> Shape, calls: seq<seq<string>>)
    ensures var st := After(f, shape, calls);
            var all := Recency(Effective(f, shape, calls));
            && st.count == (if |all| <= 1000 then all else all[|all| - 1000..])
            && NoRepeats(st.count)
            && st.cache.Keys == (set k | k in st.count && k != "__proto__")
    ensures Unspoilt(f, shape, calls) ==> Effective(f, shape, calls) == calls
  {
    hide After, Recency, Effective, Unspoilt, NoRepeats;
    OnlyEffectiveCount(f, shape, calls);
    KeptSoFar(f, shape, Effective(f, shape, calls));
  }

  lemma {:induction false} NewestNoRepeats(all: seq<string>)
    requires NoRepeats(all)
    ensures NoRepeats(Newest(all))
  {
  }

  lemma {:induction false} StepCount<V>(f: seq<string> -> V, shape: V -> Shape, st: Cache<V>, args: seq<string>, all: seq<string>)
    requires NoRepeats(all) && st.works
    requires st.count == Newest(all) && st.cache.Keys == (set k | k in st.count && k != PROTO)
    ensures Call(f, shape, st, args).0.count == Newest(Renew(all, Join(args)))
  {
    hide Newest, Renew, Without, NoRepeats;
    NewestStep(all, Join(args));
    assert Join(args) in st.cache <==> Join(args) in st.count && Join(args) != PROTO;
  }

  lemma {:induction false} StepKeys<V>(f: seq<string> -> V, shape: V -> Shape, st: Cache<V>, args: seq<string>)
    requires NoRepeats(st.count) && st.works && st.cache.Keys == (set k | k in st.count && k != PROTO)
    ensures var t := Call(f, shape, st, args).0;
            t.cache.Keys == (set k | k in t.count && k != PROTO)
  {
    var key := Join(args);
    var t := Call(f, shape, st, args).0;
    assert key in st.cache <==> key in st.count && key != PROTO;
    if key !in st.cache && |st.count| >= LIMIT {
      FirstDropped(st.count);
    }
    assert forall k :: k in t.count && k != PROTO <==> k in t.cache;
  }

  lemma {:induction false} FirstDropped(keys: seq<string>)
    requires NoRepeats(keys) && keys != []
    ensures forall k :: k != PROTO ==> (k in keys[1..] <==> k in keys && k != keys[0])
  {
  }

  // ---------------------------------------------------------------- agreement with the cached function

  /** The joined key decides the result, but for the two keys that are never looked up. */
  ghost predicate KeyDecides<V>(f: seq<string> -> V) {
    forall a, b :: Join(a) == Join(b) && Join(a) != PROTO && Join(a) != LOOKUP ==> f(a) == f(b)
  }

  ghost predicate Agrees<V>(f: seq<string> -> V, shape: V -> Shape, calls: seq<seq<string>>, args: seq<string>) {
    Call(f, shape, After(f, shape, calls), args).1 == Returned(f(args))
  }

  /** No earlier call has spoilt the lookup, and the call itself does not ask for something
      that cannot be read back. */
  predicate Safe<V>(f: seq<string> -> V, shape: V -> Shape, calls: seq<seq<string>>, args: seq<string>) {
    Unspoilt(f, shape, calls) && (Join(args) == PROTO ==> shape(f(args)).Ordinary?)
  }

  ghost predicate Cached<V>(f: seq<string> -> V, st: Cache<V>) {
    forall a :: Join(a) in st.cache && Join(a) != LOOKUP ==> st.cache[Join(a)] == f(a)
  }

  lemma {:induction false} CachedStays<V>(f: seq<string> -> V, shape: V -> Shape, calls: seq<seq<string>>)
    requires KeyDecides(f)
    ensures Cached(f, After(f, shape, calls))
  {
    if calls != [] {
      CachedStays(f, shape, calls[..|calls| - 1]);
      NeverCached(f, shape, calls);
    }
  }

  lemma {:induction false} AgreesWhenSafe<V>(f: seq<string> -> V, shape: V -> Shape, calls: seq<seq<string>>, args: seq<string>)
    requires KeyDecides(f)
    ensures Agrees(f, shape, calls, args) <==> Safe(f, shape, calls, args)
  {
    CachedStays(f, shape, calls);
    NeverCached(f, shape, calls);
    WorksExactlyWhen(f, shape, calls);
  }

  /** That a call agrees with the function exactly when it is safe, whatever was called before,
      holds exactly of the functions whose result the joined key decides. */
  lemma {:induction false} AgreesExactlyWhen<V>(f: seq<string> -> V, shape: V -> Shape)
    ensures (forall calls, args :: Agrees(f, shape, calls, args) <==> Safe(f, shape, calls, args)) <==> KeyDecides(f)
  {
    if KeyDecides(f) {
      forall calls, args ensures Agrees(f, shape, calls, args) <==> Safe(f, shape, calls, args) {
        AgreesWhenSafe(f, shape, calls, args);
      }
    }
    if forall calls, args :: Agrees(f, shape, calls, args) <==> Safe(f, shape, calls, args) {
      forall a, b | Join(a) == Join(b) && Join(a) != PROTO && Join(a) != LOOKUP ensures f(a) == f(b) {
        assert Safe(f, shape, [a], b);
        assert Agrees(f, shape, [a], b);
        assert [a][..0] == [];
      }
    }
  }

  /** An argument list the key can be split back into: not empty, and no argument contains the
      separator. */
  predicate Separable(args: seq<string>) {
    args != [] && forall k :: 0 <= k < |args| ==> '\U{2400}' !in args[k]
  }

  lemma {:induction false} FirstSeparator(x: string, y: string, rest: string, rest': string)
    requires SEPARATOR[0] !in x && SEPARATOR[0] !in y
    requires x + SEPARATOR + rest == y + SEPARATOR + rest'
    ensures x == y && rest == rest'
  {
    var t := x + SEPARATOR + rest;
    assert t == y + SEPARATOR + rest';
    assert t[|x|] == SEPARATOR[0] && t[|y|] == SEPARATOR[0];
    assert forall k :: 0 <= k < |x| ==> t[k] == x[k];
    assert forall k :: 0 <= k < |y| ==> t[k] == y[k];
    assert x == t[..|x|] && y == t[..|y|];
    assert rest == t[|x| + 1..] && rest' == t[|y| + 1..];
  }

  lemma {:induction false} KeyTells(a: seq<string>)
    requires Separable(a)
    ensures |a| > 1 <==> SEPARATOR[0] in Join(a)
  {
    if |a| > 1 { assert Join(a)[|a[0]|] == SEPARATOR[0]; }
  }

  /** Different argument lists of this kind have different keys. */
  lemma {:induction false} JoinInjective(a: seq<string>, b: seq<string>)
    requires Separable(a) && Separable(b) && Join(a) == Join(b)
    ensures a == b
  {
    KeyTells(a);
    KeyTells(b);
    if |a| == 1 {
      assert a == [a[0]] && b == [b[0]];
    } else {
      FirstSeparator(a[0], b[0], Join(a[1..]), Join(b[1..]));
      JoinInjective(a[1..], b[1..]);
      assert a == [a[0]] + a[1..] && b == [b[0]] + b[1..];
    }
  }

  lemma {:induction false} SeparableCached<V>(f: seq<string> -> V, shape: V -> Shape, calls: seq<seq<string>>, a: seq<string>)
    requires forall k :: 0 <= k < |calls| ==> Separable(calls[k])
    requires Separable(a)
    ensures var st := After(f, shape, calls);
            Join(a) in st.cache ==> st.cache[Join(a)] == f(a)
  {
    if calls != [] {
      var init, args := calls[..|calls| - 1], calls[|calls| - 1];
      SeparableCached(f, shape, init, a);
      if Join(args) == Join(a) { JoinInjective(args, a); }
    }
  }

  /** So on histories of such calls the wrapper agrees with every function, exactly as long as
      the calls are safe. */
  lemma {:induction false} AgreesOnSeparable<V>(f: seq<string> -> V, shape: V -> Shape, calls: seq<seq<string>>, args: seq<string>)
    requires forall k :: 0 <= k < |calls| ==> Separable(calls[k])
    requires Separable(args)
    ensures Agrees(f, shape, calls, args) <==> Safe(f, shape, calls, args)
  {
    SeparableCached(f, shape, calls, args);
    NeverCached(f, shape, calls);
    WorksExactlyWhen(f, shape, calls);
  }

  /** And the key does not decide it for every function: two arguments and one argument that
      contains the separator share a key. */
  lemma {:induction false} KeysCollide()
    ensures Join(["a", "b"]) == "a\U{2400}b" == Join(["a\U{2400}b"])
    ensures exists f: seq<string> -> int :: !KeyDecides(f)
  {
    var f: seq<string> -> int := (s: seq<string>) => |s|;
    assert Join(["b"]) == "b" && ["a", "b"][1..] == ["b"];
    assert Join(["a", "b"])[1] == SEPARATOR[0] && PROTO[1] == '_' && LOOKUP[1] == 'a';
    assert "a" + SEPARATOR + "b" == "a\U{2400}b";
    assert f(["a", "b"]) != f(["a\U{2400}b"]);
    assert !KeyDecides(f);
  }

  // ---------------------------------------------------------------- the two keys

  /** One call with the argument "hasOwnProperty" returns its result, and every later call
      throws. */
  lemma {:induction false} LookupReplaced<V>(f: seq<string> -> V, shape: V -> Shape, args: seq<string>)
    ensures Separable(["hasOwnProperty"]) && Agrees(f, shape, [], ["hasOwnProperty"])
    ensures Call(f, shape, After(f, shape, [["hasOwnProperty"]]), args).1 == Thrown
  {
    assert [[LOOKUP]][0] == [LOOKUP] && Spoils(f, shape, [LOOKUP]);
    WorksExactlyWhen(f, shape, [[LOOKUP]]);
  }

  /** Two calls with the argument "__proto__" list the key twice and cache nothing; when the
      result is a number, say, it is not even returned. */
  lemma {:induction false} ProtoListedTwice<V>(f: seq<string> -> V, shape: V -> Shape)
    requires !shape(f(["__proto__"])).Null?
    ensures Separable(["__proto__"])
    ensures After(f, shape, [["__proto__"], ["__proto__"]]) == Cache(map[], ["__proto__", "__proto__"], true)
    ensures shape(f(["__proto__"])).Primitive? ==> Call(f, shape, After(f, shape, []), ["__proto__"]).1 == Inherited
  {
    var calls := [[PROTO], [PROTO]];
    assert calls[..1] == [[PROTO]] && [[PROTO]][..0] == [];
    assert After(f, shape, [[PROTO]]) == Cache(map[], [PROTO], true);
  }

  lemma {:induction false} OneCallMore<V>(f: seq<string> -> V, shape: V -> Shape, calls: seq<seq<string>>, args: seq<string>)
    ensures After(f, shape, calls + [args]) == Call(f, shape, After(f, shape, calls), args).0
  {
    assert (calls + [args])[..|calls|] == calls;
  }

  // ---------------------------------------------------------------- the wrapper as it runs

  class Wrapper<V, W> {
    const f: seq<string> -> V
    const post: V -> W
    const shape: V -> Shape
    var cache: map<string, V>
    var count: seq<string>
    /** Whether `cache.hasOwnProperty` is still the built-in function. */
    var works: bool
    ghost var calls: seq<seq<string>>

    ghost predicate Valid()
      reads this
    {
      Cache(cache, count, works) == After(f, shape, calls)
    }

    constructor (f: seq<string> -> V, post: V -> W, shape: V -> Shape)
      ensures Valid() && calls == [] && this.f == f && this.post == post && this.shape == shape
    {
      this.f := f;
      this.post := post;
      this.shape := shape;
      cache := map[];
      count := [];
      works := true;
      calls := [];
    }

    /** Move `key` to the end, if it is there. */
    method Touch(key: string)
      requires NoRepeats(count) && key != PROTO
      modifies this`count
      ensures count == if key in old(count) then Without(old(count), key) + [key] else old(count)
    {
      var n := 0;
      while n < |count|
        invariant n <= |count| && count == old(count) && key !in count[..n]
      {
        if count[n] == key {
          WithoutAt(count, n);
          var taken := count[n];
          count := count[..n] + count[n + 1..];
          count := count + [taken];
          return;
        }
        n := n + 1;
      }
    }

    /** `cache[key] := v`, as the object does it. */
    method Store(key: string, v: V)
      modifies this`cache, this`works
      ensures cache == if key == PROTO then old(cache) else old(cache)[key := v]
      ensures works == (old(works) && key != LOOKUP && !(key == PROTO && shape(v).Null?))
    {
      if key == PROTO {
        works := works && !shape(v).Null?;
      } else {
        cache := cache[key := v];
        works := works && key != LOOKUP;
      }
    }

    method Apply(args: seq<string>) returns (r: Outcome<W>)
      requires Valid()
      modifies this
      ensures Valid() && calls == old(calls) + [args]
      ensures r == match Call(f, shape, After(f, shape, old(calls)), args).1
                   case Returned(v) => Returned(post(v))
                   case Inherited => Inherited
                   case Thrown => Thrown
    {
      hide After, NoRepeats, Without;
      OneCallMore(f, shape, calls, args);
      KeepsTheNewest(f, shape, calls);
      ghost var was := calls;
      calls := calls + [args];
      var key := Join(args);
      if !works {
        return Thrown;
      }
      if key in cache {
        Touch(key);
        return Returned(post(cache[key]));
      }
      if |count| >= LIMIT {
        cache := cache - {count[0]};
        count := count[1..];
      }
      count := count + [key];
      var v := f(args);
      Store(key, v);
      r := if key == PROTO && !shape(v).Ordinary? then Inherited else Returned(post(v));
    }
  }
}
