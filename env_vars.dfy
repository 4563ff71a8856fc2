/**
 * Configuration dictionaries as the environment file loader returns them: a
 * key may be absent, present without a value (`None`), or present with a
 * string. Both validators.py and configuration.py compute "the required keys
 * whose value is falsy" with the same list comprehension; it is defined here once.
 */
module EnvVars {
  import opened Wrappers

  type Env = map<string, Option<string>>

  /** `env.get(key)` is truthy: the key is there with a non-empty string. */
  predicate Present(env: Env, key: string) {
    key in env && env[key].Some? && env[key].value != ""
  }

  /** `env[key]` once the key is known to be present; "" where it is not. */
  function ValueOf(env: Env, key: string): string {
    if key in env && env[key].Some? then env[key].value else ""
  }

  /** `[k for k in keys if not env.get(k)]`. */
  function MissingKeys(env: Env, keys: seq<string>): (r: seq<string>)
    ensures forall k :: k in r <==> k in keys && !Present(env, k)
    ensures |r| <= |keys|
  {
    if keys == [] then []
    else (if Present(env, keys[0]) then [] else [keys[0]]) + MissingKeys(env, keys[1..])
  }

  /** Nothing is missing exactly when every key is present. */
  lemma {:induction false} NoneMissing(env: Env, keys: seq<string>)
    ensures MissingKeys(env, keys) == [] <==> forall k :: k in keys ==> Present(env, k)
  {
    if keys != [] {
      NoneMissing(env, keys[1..]);
      assert forall k :: k in keys <==> k == keys[0] || k in keys[1..];
    }
  }

  /** `a` is `b` with some elements left out and the rest in their original order. */
  ghost predicate Subsequence(a: seq<string>, b: seq<string>)
    decreases |b|
  {
    if a == [] then true
    else if b == [] then false
    else if a[0] == b[0] then Subsequence(a[1..], b[1..])
    else Subsequence(a, b[1..])
  }

  /** The missing keys are reported in the order of the required list. */
  lemma {:induction false} MissingKeysInOrder(env: Env, keys: seq<string>)
    ensures Subsequence(MissingKeys(env, keys), keys)
  {
    if keys != [] {
      MissingKeysInOrder(env, keys[1..]);
      var rest := MissingKeys(env, keys[1..]);
      if !Present(env, keys[0]) {
        assert MissingKeys(env, keys) == [keys[0]] + rest;
        assert ([keys[0]] + rest)[1..] == rest;
      } else {
        assert MissingKeys(env, keys) == rest;
        SubsequenceSkip(rest, keys);
      }
    }
  }

  lemma {:induction false} SubsequenceSkip(a: seq<string>, b: seq<string>)
    requires b != [] && Subsequence(a, b[1..])
    ensures Subsequence(a, b)
    decreases |b|, 0
  {
    if a != [] && a[0] == b[0] {
      // Matching b[0] here leaves a[1..] to be found in b[1..].
      SubsequenceDropFirst(a, b[1..]);
    }
  }

  lemma {:induction false} SubsequenceDropFirst(a: seq<string>, b: seq<string>)
    requires a != [] && Subsequence(a, b)
    ensures Subsequence(a[1..], b)
    decreases |b|, 1
  {
    if b != [] {
      if a[0] == b[0] {
        if a[1..] != [] { SubsequenceSkip(a[1..], b); }
      } else {
        SubsequenceDropFirst(a, b[1..]);
        if a[1..] != [] { SubsequenceSkip(a[1..], b); }
      }
    }
  }
}
