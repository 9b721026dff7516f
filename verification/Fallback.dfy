/** The provider fallback chain: how it is built, how a call walks it, and the flags it leaves. */
module Fallback {
  import opened Common

  /** Providers are singletons, known by a name. */
  type Provider = string

  /** What a provider call can throw: a coded error, a raw error object, or something else. */
  datatype Failure =
    | Coded(code: int)
    | Raw(networkCode: Option<string>, message: Option<string>)
    | Thrown

  type Outcome<T> = Result<T, Failure>

  const RAW_NETWORK_CODES := {"ECONNRESET", "ECONNREFUSED", "ETIMEDOUT", "ENOTFOUND", "EAI_AGAIN"}

  /** BadWeatherData, InsufficientWeatherData, MissingWeatherField, WeatherApiError, UnsupportedAdjustmentMethod. */
  const ELIGIBLE_CODES := {1, 10, 11, 12, 40}

  function Lower(c: char): char {
    if 'A' <= c <= 'Z' then c - 'A' + 'a' else c
  }

  /** The pattern /timed out/i. */
  predicate SaysTimedOut(message: string) {
    exists i :: 0 <= i <= |message| && StartsWith(message[i..], "timed out")
  }

  predicate StartsWith(s: string, lowerCase: string) {
    lowerCase == "" || (s != "" && Lower(s[0]) == lowerCase[0] && StartsWith(s[1..], lowerCase[1..]))
  }

  predicate IsFallbackEligible(err: Failure) {
    match err
    case Coded(code) => code in ELIGIBLE_CODES
    case Raw(networkCode, message) =>
      (networkCode.Some? && networkCode.value in RAW_NETWORK_CODES) || (message.Some? && SaysTimedOut(message.value))
    case Thrown => false
  }

  /**
   * Eligible are five coded errors, five network errors, and anything whose message says "timed
   * out" in small or capital letters.
   */
  lemma EligibleIff(err: Failure)
    ensures IsFallbackEligible(err) <==>
            match err
            case Coded(code) => code == 1 || code == 10 || code == 11 || code == 12 || code == 40
            case Raw(name, message) =>
              || name == Some("ECONNRESET") || name == Some("ECONNREFUSED") || name == Some("ETIMEDOUT")
              || name == Some("ENOTFOUND") || name == Some("EAI_AGAIN")
              || (message.Some? && exists i :: 0 <= i <= |message.value| - 9 && SaysAt(message.value, i, "timed out"))
            case Thrown => false
  {
    if err.Raw? && err.message.Some? {
      forall i | 0 <= i <= |err.message.value|
        ensures StartsWith(err.message.value[i..], "timed out") <==>
                i <= |err.message.value| - 9 && SaysAt(err.message.value, i, "timed out")
      {
        StartsWithIff(err.message.value, i, "timed out");
      }
    }
  }

  /** The word stands at position i of the message, in small or capital letters. */
  ghost predicate SaysAt(message: string, i: int, word: string) {
    0 <= i <= |message| - |word| && forall k :: 0 <= k < |word| ==> SameLetter(message[i + k], word[k])
  }

  predicate SameLetter(c: char, small: char) {
    c == small || ('A' <= c <= 'Z' && c as int + 32 == small as int)
  }

  lemma {:induction false} StartsWithIff(message: string, i: nat, word: string)
    requires i <= |message| && forall c <- word :: c == ' ' || 'a' <= c <= 'z'
    ensures StartsWith(message[i..], word) <==> SaysAt(message, i, word)
    decreases |word|
  {
    if word != "" && i < |message| {
      assert word[0] in word && message[i..][1..] == message[i + 1..];
      assert forall c <- word[1..] :: c in word;
      StartsWithIff(message, i + 1, word[1..]);
      SaysAtIff(message, i, word);
      assert Lower(message[i]) == word[0] <==> SameLetter(message[i], word[0]);
    }
  }

  /** Word by letter: the first here, and the rest one position on. */
  lemma SaysAtIff(message: string, i: nat, word: string)
    requires word != "" && i < |message|
    ensures SaysAt(message, i, word) <==> SameLetter(message[i], word[0]) && SaysAt(message, i + 1, word[1..])
  {
    if SaysAt(message, i, word) {
      assert SameLetter(message[i + 0], word[0]);
      forall k | 0 <= k < |word| - 1 ensures SameLetter(message[i + 1 + k], word[1..][k]) {
        assert SameLetter(message[i + (k + 1)], word[k + 1]);
      }
    }
    if SameLetter(message[i], word[0]) && SaysAt(message, i + 1, word[1..]) {
      forall k | 0 <= k < |word| ensures SameLetter(message[i + k], word[k]) {
        if k > 0 {
          assert SameLetter(message[i + 1 + (k - 1)], word[1..][k - 1]);
        }
      }
    }
  }

  datatype Description = ErrCode(code: int) | NetworkCode(name: string) | Unspecific

  function DescribeErr(err: Failure): Description {
    match err
    case Coded(code) => ErrCode(code)
    case Raw(Some(name), _) => NetworkCode(name)
    case _ => Unspecific
  }

  /** The description of a bypass names the coded or network error behind it, and mixes none up. */
  lemma DescriptionNamesError(a: Failure, b: Failure)
    requires DescribeErr(a) == DescribeErr(b)
    ensures a.Coded? <==> b.Coded?
    ensures a.Coded? ==> a.code == b.code && DescribeErr(a) == ErrCode(a.code)
    ensures a.Raw? && a.networkCode.Some? ==>
              b.Raw? && b.networkCode == a.networkCode && DescribeErr(a) == NetworkCode(a.networkCode.value)
  {
  }

  // ------------------------------------------------------------------ building the chain

  /** The chain after adding, in order, every known provider that it does not have yet. */
  function Extended(chain: seq<Provider>, keys: seq<string>, lookup: string -> Option<Provider>): seq<Provider>
    decreases keys
  {
    if keys == [] then chain
    else
      var p := lookup(keys[0]);
      Extended(if p.Some? && p.value !in chain then chain + [p.value] else chain, keys[1..], lookup)
  }

  predicate NoDuplicates(s: seq<Provider>) {
    forall i, j :: 0 <= i < j < |s| ==> s[i] != s[j]
  }

  method BuildFallbackChain(primary: Provider, fallbackKeys: seq<string>, lookup: string -> Option<Provider>)
    returns (chain: seq<Provider>)
    ensures chain == Extended([primary], fallbackKeys, lookup)
  {
    chain := [primary];
    for k := 0 to |fallbackKeys|
      invariant Extended(chain, fallbackKeys[k..], lookup) == Extended([primary], fallbackKeys, lookup)
    {
      var p := lookup(fallbackKeys[k]);
      if p.Some? && p.value !in chain {
        chain := chain + [p.value];
      }
    }
  }

  /** The chain starts with the given one, repeats nobody, and has exactly the known providers of the keys besides. */
  lemma {:induction false} ExtendedChain(chain: seq<Provider>, keys: seq<string>, lookup: string -> Option<Provider>)
    requires NoDuplicates(chain)
    ensures var r := Extended(chain, keys, lookup);
            && chain <= r && NoDuplicates(r)
            && forall p :: p in r <==> p in chain || exists k :: 0 <= k < |keys| && lookup(keys[k]) == Some(p)
    decreases keys
  {
    if keys != [] {
      var p := lookup(keys[0]);
      var next := if p.Some? && p.value !in chain then chain + [p.value] else chain;
      ExtendedChain(next, keys[1..], lookup);
      var r := Extended(chain, keys, lookup);
      forall q ensures q in r <==> q in chain || exists k :: 0 <= k < |keys| && lookup(keys[k]) == Some(q) {
        if k :| 0 <= k < |keys| && lookup(keys[k]) == Some(q) {
          if k > 0 {
            assert lookup(keys[1..][k - 1]) == Some(q);
          }
        }
        if q in r && q !in next {
          var k :| 0 <= k < |keys[1..]| && lookup(keys[1..][k]) == Some(q);
          assert lookup(keys[k + 1]) == Some(q);
        }
      }
    }
  }

  /** Fallbacks keep the order of the keys that first name them. */
  lemma {:induction false} ExtendedKeepsKeyOrder(chain: seq<Provider>, keys: seq<string>,
                                                 lookup: string -> Option<Provider>, i: nat, j: nat)
    requires |chain| <= i < j < |Extended(chain, keys, lookup)|
    ensures var r := Extended(chain, keys, lookup);
            exists a, b :: 0 <= a < b < |keys| && lookup(keys[a]) == Some(r[i]) && lookup(keys[b]) == Some(r[j])
    decreases keys
  {
    var r := Extended(chain, keys, lookup);
    var p := lookup(keys[0]);
    var next := if p.Some? && p.value !in chain then chain + [p.value] else chain;
    if i < |next| {
      ExtendedStartsWith(next, keys[1..], lookup);
      ComesFromKey(next, keys[1..], lookup, j);
      var b :| 0 <= b < |keys[1..]| && lookup(keys[1..][b]) == Some(r[j]);
      assert lookup(keys[0]) == Some(r[i]) && lookup(keys[b + 1]) == Some(r[j]);
    } else {
      ExtendedKeepsKeyOrder(next, keys[1..], lookup, i, j);
      var a, b :| 0 <= a < b < |keys[1..]| && lookup(keys[1..][a]) == Some(r[i]) && lookup(keys[1..][b]) == Some(r[j]);
      assert lookup(keys[a + 1]) == Some(r[i]) && lookup(keys[b + 1]) == Some(r[j]);
    }
  }

  lemma {:induction false} ExtendedStartsWith(chain: seq<Provider>, keys: seq<string>,
                                              lookup: string -> Option<Provider>)
    ensures chain <= Extended(chain, keys, lookup)
    decreases keys
  {
    if keys != [] {
      var p := lookup(keys[0]);
      ExtendedStartsWith(if p.Some? && p.value !in chain then chain + [p.value] else chain, keys[1..], lookup);
    }
  }

  lemma {:induction false} ComesFromKey(chain: seq<Provider>, keys: seq<string>, lookup: string -> Option<Provider>,
                                        j: nat)
    requires |chain| <= j < |Extended(chain, keys, lookup)|
    ensures exists b :: 0 <= b < |keys| && lookup(keys[b]) == Some(Extended(chain, keys, lookup)[j])
    decreases keys
  {
    var r := Extended(chain, keys, lookup);
    var p := lookup(keys[0]);
    var next := if p.Some? && p.value !in chain then chain + [p.value] else chain;
    if j < |next| {
      ExtendedStartsWith(next, keys[1..], lookup);
      assert lookup(keys[0]) == Some(r[j]);
    } else {
      ComesFromKey(next, keys[1..], lookup, j);
      var b :| 0 <= b < |keys[1..]| && lookup(keys[1..][b]) == Some(r[j]);
      assert lookup(keys[b + 1]) == Some(r[j]);
    }
  }

  // ------------------------------------------------------------------ walking the chain

  datatype Flags = Flags(servedIndex: int, reason: Option<Description>)

  const UNUSED := Flags(-1, None)

  predicate EligibleFailure<T>(o: Outcome<T>) {
    o.Err? && IsFallbackEligible(o.error)
  }

  /** The position from i on whose provider settles the call. */
  function StopAt<T>(chain: seq<Provider>, fn: Provider -> Outcome<T>, i: nat): (n: nat)
    requires i < |chain|
    ensures i <= n < |chain|
    decreases |chain| - i
  {
    if i == |chain| - 1 || !EligibleFailure(fn(chain[i])) then i else StopAt(chain, fn, i + 1)
  }

  /** The outcome of a call and the flags it leaves; an empty chain throws an undefined error. */
  function RunChain<T>(chain: seq<Provider>, fn: Provider -> Outcome<T>, flags: Flags): (Outcome<T>, Flags) {
    if chain == [] then (Err(Thrown), flags)
    else
      var n := StopAt(chain, fn, 0);
      var outcome := fn(chain[n]);
      var passed := if n > 0 then fn(chain[n - 1]) else outcome;
      (outcome, Flags(if outcome.Ok? then n else flags.servedIndex,
                      if n > 0 && passed.Err? then Some(DescribeErr(passed.error)) else flags.reason))
  }

  /** The settling position is the first one that is not an eligible failure, or the last. */
  lemma {:induction false} StopIsFirst<T>(chain: seq<Provider>, fn: Provider -> Outcome<T>, i: nat)
    requires i < |chain|
    ensures var n := StopAt(chain, fn, i);
            && (forall k :: i <= k < n ==> EligibleFailure(fn(chain[k])))
            && (EligibleFailure(fn(chain[n])) ==> n == |chain| - 1)
    decreases |chain| - i
  {
    if !(i == |chain| - 1 || !EligibleFailure(fn(chain[i]))) {
      StopIsFirst(chain, fn, i + 1);
    }
  }

  lemma {:induction false} StopIsUnique<T>(chain: seq<Provider>, fn: Provider -> Outcome<T>, i: nat, n: nat)
    requires i <= n < |chain|
    requires forall k :: i <= k < n ==> EligibleFailure(fn(chain[k]))
    requires n == |chain| - 1 || !EligibleFailure(fn(chain[n]))
    ensures StopAt(chain, fn, i) == n
    decreases n - i
  {
    if i < n {
      StopIsUnique(chain, fn, i + 1, n);
    }
  }

  lemma {:induction false} StopsAlike<T>(chain: seq<Provider>, f: Provider -> Outcome<T>, g: Provider -> Outcome<T>,
                                         i: nat)
    requires i < |chain| && forall p :: f(p) == g(p)
    ensures StopAt(chain, f, i) == StopAt(chain, g, i)
    decreases |chain| - i
  {
    if i < |chain| - 1 && EligibleFailure(f(chain[i])) {
      StopsAlike(chain, f, g, i + 1);
    }
  }

  lemma RunsAlike<T>(chain: seq<Provider>, f: Provider -> Outcome<T>, g: Provider -> Outcome<T>, flags: Flags)
    requires forall p :: f(p) == g(p)
    ensures RunChain(chain, f, flags) == RunChain(chain, g, flags)
  {
    if chain != [] {
      StopsAlike(chain, f, g, 0);
    }
  }

  /** Whatever the first chain returns, the second one returns as well. */
  ghost predicate Covers<T(!new)>(a: seq<Provider>, b: seq<Provider>) {
    forall fn: Provider -> Outcome<T>, v: T :: RunChain(a, fn, UNUSED).0 == Ok(v) ==> RunChain(b, fn, UNUSED).0 == Ok(v)
  }

  lemma PrefixReturnsAlike<T>(a: seq<Provider>, b: seq<Provider>, fn: Provider -> Outcome<T>)
    requires a != [] && a <= b && RunChain(a, fn, UNUSED).0.Ok?
    ensures RunChain(b, fn, UNUSED).0 == RunChain(a, fn, UNUSED).0
  {
    var n := StopAt(a, fn, 0);
    StopIsFirst(a, fn, 0);
    assert b[..|a|] == a;
    forall k | 0 <= k <= n ensures b[k] == a[k] {
    }
    StopIsUnique(b, fn, 0, n);
  }

  /** A world in which only one provider works, and the given ones fail eligibly. */
  function OnlyOneWorks<T>(failing: seq<Provider>, working: Provider, v: T): Provider -> Outcome<T> {
    p => if p in failing then Err(Coded(1)) else if p == working then Ok(v) else Err(Thrown)
  }

  lemma WorkingOneAnswers<T>(chain: seq<Provider>, k: nat, v: T)
    requires k < |chain| && NoDuplicates(chain)
    ensures RunChain(chain, OnlyOneWorks(chain[..k], chain[k], v), UNUSED).0 == Ok(v)
  {
    var fn := OnlyOneWorks(chain[..k], chain[k], v);
    assert chain[k] !in chain[..k];
    assert forall i :: 0 <= i < k ==> chain[i] in chain[..k];
    StopIsUnique(chain, fn, 0, k);
  }

  lemma WithoutItAllFail<T>(chain: seq<Provider>, k: nat, working: Provider, v: T)
    requires chain != [] && k <= |chain| && NoDuplicates(chain) && (k < |chain| ==> chain[k] != working)
    ensures RunChain(chain, OnlyOneWorks(chain[..k], working, v), UNUSED).0.Err?
  {
    var fn, n := OnlyOneWorks(chain[..k], working, v), if k < |chain| then k else |chain| - 1;
    assert forall i :: 0 <= i < k ==> chain[i] in chain[..k];
    assert k < |chain| ==> chain[k] !in chain[..k];
    StopIsUnique(chain, fn, 0, n);
  }

  /** Where the first chain is not a prefix of the second, the first can return something and the second nothing. */
  lemma DivergentReturn<T>(a: seq<Provider>, b: seq<Provider>, v: T) returns (fn: Provider -> Outcome<T>)
    requires b != [] && NoDuplicates(a) && NoDuplicates(b) && !(a <= b)
    ensures RunChain(a, fn, UNUSED).0 == Ok(v) && RunChain(b, fn, UNUSED).0.Err?
  {
    var k := FirstDifference(a, b);
    fn := OnlyOneWorks(a[..k], a[k], v);
    WorkingOneAnswers(a, k, v);
    WithoutItAllFail(b, k, a[k], v);
  }

  lemma {:induction false} FirstDifference(a: seq<Provider>, b: seq<Provider>) returns (k: nat)
    requires !(a <= b)
    ensures k < |a| && k <= |b| && a[..k] == b[..k] && (k < |b| ==> a[k] != b[k])
  {
    if b == [] || a[0] != b[0] {
      k := 0;
    } else {
      assert a == [a[0]] + a[1..] && b == [b[0]] + b[1..];
      var n := FirstDifference(a[1..], b[1..]);
      k := n + 1;
      assert a[..k] == [a[0]] + a[1..][..n] && b[..k] == [b[0]] + b[1..][..n];
    }
  }

  /** A chain without repetitions returns nothing foreign to another one exactly when it is a prefix of it. */
  lemma CoversIffPrefix<T(!new)>(a: seq<Provider>, b: seq<Provider>, v: T)
    requires a != [] && b != [] && NoDuplicates(a) && NoDuplicates(b)
    ensures Covers<T>(a, b) <==> a <= b
  {
    if a <= b {
      forall fn: Provider -> Outcome<T>, u: T | RunChain(a, fn, UNUSED).0 == Ok(u)
        ensures RunChain(b, fn, UNUSED).0 == Ok(u)
      {
        PrefixReturnsAlike(a, b, fn);
      }
    } else {
      var fn := DivergentReturn(a, b, v);
    }
  }

  /**
   * A call is settled by the provider at n when all before it fail eligibly and it does not, or is
   * the last. Its outcome is the call's; a return leaves its position, and passing a provider over
   * leaves the description of the last failure passed over.
   */
  lemma SettledOutcome<T>(chain: seq<Provider>, fn: Provider -> Outcome<T>, flags: Flags, n: nat)
    requires n < |chain| && forall k :: 0 <= k < n ==> EligibleFailure(fn(chain[k]))
    requires n == |chain| - 1 || !EligibleFailure(fn(chain[n]))
    ensures var (outcome, after) := RunChain(chain, fn, flags);
            && outcome == fn(chain[n])
            && after.servedIndex == (if outcome.Ok? then n else flags.servedIndex)
            && (n == 0 ==> after.reason == flags.reason)
            && (n > 0 ==> fn(chain[n - 1]).Err? && after.reason == Some(DescribeErr(fn(chain[n - 1]).error)))
  {
    StopIsUnique(chain, fn, 0, n);
  }

  class FallbackWeatherProvider {
    const chain: seq<Provider>
    const primaryIsPws: bool
    var servedIndex: int
    var lastFallbackReason: Option<Description>

    constructor(chain: seq<Provider>, primaryIsPws: bool)
      ensures this.chain == chain && this.primaryIsPws == primaryIsPws && State() == UNUSED
    {
      this.chain := chain;
      this.primaryIsPws := primaryIsPws;
      servedIndex := -1;
      lastFallbackReason := None;
    }

    function State(): Flags
      reads this
    {
      Flags(servedIndex, lastFallbackReason)
    }

    predicate ServedFallback()
      reads this
    {
      servedIndex > 0
    }

    predicate PwsBypassed()
      reads this
    {
      primaryIsPws && servedIndex > 0
    }

    /** Tries the providers in order; called lists those asked, each at most once. */
    method Run<T>(fn: Provider -> Outcome<T>) returns (r: Outcome<T>, called: seq<Provider>)
      modifies this
      ensures (r, State()) == RunChain(chain, fn, old(State()))
      ensures called <= chain && (chain != [] ==> called != [] && r == fn(called[|called| - 1]))
      ensures forall k :: 0 <= k < |called| - 1 ==> EligibleFailure(fn(called[k]))
      ensures |called| < |chain| ==> !EligibleFailure(r)
    {
      called := [];
      for i := 0 to |chain|
        invariant called == chain[..i]
        invariant forall k :: 0 <= k < i ==> EligibleFailure(fn(chain[k]))
        invariant i < |chain| || i == 0
        invariant servedIndex == old(servedIndex)
        invariant lastFallbackReason ==
                  if i > 0 then Some(DescribeErr(fn(chain[i - 1]).error)) else old(lastFallbackReason)
      {
        called := called + [chain[i]];
        assert called == chain[..i + 1];
        r := fn(chain[i]);
        if r.Ok? || i == |chain| - 1 || !IsFallbackEligible(r.error) {
          StopIsUnique(chain, fn, 0, i);
          if r.Ok? {
            servedIndex := i;
          }
          return;
        }
        lastFallbackReason := Some(DescribeErr(r.error));
      }
      r := Err(Thrown);
    }
  }

  /** A bypass always has a reason to show. */
  predicate Explained(flags: Flags) {
    flags.servedIndex > 0 ==> flags.reason.Some?
  }

  function RunAll<T>(chain: seq<Provider>, calls: seq<Provider -> Outcome<T>>, flags: Flags): Flags {
    if calls == [] then flags
    else RunChain(chain, calls[|calls| - 1], RunAll(chain, calls[..|calls| - 1], flags)).1
  }

  lemma RunKeepsExplained<T>(chain: seq<Provider>, fn: Provider -> Outcome<T>, flags: Flags)
    requires Explained(flags)
    ensures Explained(RunChain(chain, fn, flags).1)
  {
    if chain != [] {
      StopIsFirst(chain, fn, 0);
    }
  }

  /** Over any sequence of calls on one wrapper, whenever a fallback has served, a reason is known. */
  lemma {:induction false} BypassAlwaysHasReason<T>(chain: seq<Provider>, calls: seq<Provider -> Outcome<T>>)
    ensures Explained(RunAll(chain, calls, UNUSED))
  {
    if calls != [] {
      BypassAlwaysHasReason(chain, calls[..|calls| - 1]);
      RunKeepsExplained(chain, calls[|calls| - 1], RunAll(chain, calls[..|calls| - 1], UNUSED));
    }
  }

  /** A chain of one behaves like its bare provider and never reports a fallback. */
  lemma SingletonIsBare<T>(p: Provider, fn: Provider -> Outcome<T>, flags: Flags)
    ensures RunChain([p], fn, flags).0 == fn(p)
    ensures flags.servedIndex <= 0 ==> RunChain([p], fn, flags).1.servedIndex <= 0
  {
  }
}
