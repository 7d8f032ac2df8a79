/** What a lookup of input bytes means: the answer of a finite map from encodings to keys. */
module KeyBindings {
  import opened Basics

  datatype Key = Key(virtualKey: Word, unicodeChar: nat, keyState: Word)

  const KEY_ZERO := Key(0, 0, 0)

  predicate IsKey(key: Key) {
    key.virtualKey != 0 || key.unicodeChar != 0
  }

  // ---------- What a finite map answers ----------

  type Bindings = map<Bytes, Key>

  predicate Matches(bindings: Bindings, input: Bytes) {
    input in bindings && IsKey(bindings[input])
  }

  /** The length of the longest prefix, of the first `n` bytes, that is bound to a key; 0 if none is. */
  function LongestMatch(bindings: Bindings, input: Bytes, n: nat): (r: nat)
    requires n <= |input|
    ensures r <= n && (r > 0 ==> Matches(bindings, input[..r]))
  {
    if n == 0 then 0 else if Matches(bindings, input[..n]) then n else LongestMatch(bindings, input, n - 1)
  }

  /** Some encoding starts with `input` and goes on. */
  predicate Incomplete(bindings: Bindings, input: Bytes) {
    exists e :: e in bindings && input < e
  }

  datatype Found = Found(length: nat, key: Key, incomplete: bool)

  function Lookup(bindings: Bindings, input: Bytes): (r: Found)
    ensures r.length <= |input|
  {
    var n := LongestMatch(bindings, input, |input|);
    Found(n, if n == 0 then KEY_ZERO else bindings[input[..n]], Incomplete(bindings, input))
  }

  lemma {:induction false} LongestIsLongest(bindings: Bindings, input: Bytes, n: nat)
    requires n <= |input|
    ensures var r := LongestMatch(bindings, input, n);
      && (r > 0 ==> Matches(bindings, input[..r]))
      && forall k :: r < k <= n ==> !Matches(bindings, input[..k])
  {
    if n > 0 && !Matches(bindings, input[..n]) {
      LongestIsLongest(bindings, input, n - 1);
    }
  }

  lemma {:induction false} NoLongerMatch(bindings: Bindings, input: Bytes, k: nat, n: nat)
    requires 0 < k <= n + 1 <= |input| + 1 && forall m :: k <= m <= |input| ==> input[..m] !in bindings
    ensures LongestMatch(bindings, input, n) == LongestMatch(bindings, input, k - 1)
  {
    if n >= k {
      NoLongerMatch(bindings, input, k, n - 1);
    }
  }

  /** If nothing extends `input`, more input does not change the answer. */
  lemma {:induction false} LongestIsStable(bindings: Bindings, input: Bytes, more: Bytes, n: nat)
    requires !Incomplete(bindings, input) && |input| <= n <= |input + more|
    ensures LongestMatch(bindings, input + more, n) == LongestMatch(bindings, input, |input|)
  {
    var all := input + more;
    if n > |input| {
      assert input < all[..n];
      LongestIsStable(bindings, input, more, n - 1);
    } else {
      SamePrefixSameMatch(bindings, input, more, n);
    }
  }

  lemma {:induction false} SamePrefixSameMatch(bindings: Bindings, input: Bytes, more: Bytes, n: nat)
    requires n <= |input|
    ensures LongestMatch(bindings, input + more, n) == LongestMatch(bindings, input, n)
  {
    if n > 0 {
      assert (input + more)[..n] == input[..n];
      SamePrefixSameMatch(bindings, input, more, n - 1);
    }
  }

  /** An answer that waits for nothing is the answer for every longer input too. */
  lemma {:induction false} LookupIsStable(bindings: Bindings, input: Bytes, more: Bytes)
    requires !Incomplete(bindings, input)
    ensures Lookup(bindings, input + more) == Lookup(bindings, input)
  {
    LongestIsStable(bindings, input, more, |input + more|);
    var n := LongestMatch(bindings, input, |input|);
    assert (input + more)[..n] == input[..n];
    forall e | e in bindings
      ensures input + more < e ==> input < e
    {
    }
  }
}
