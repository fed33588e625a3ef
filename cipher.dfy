/**
 * The recorder's repeating-key XOR obfuscation (`XOR_RCON.xor_crypt`).
 * Every call builds its keystream afresh from the first key byte: no
 * offset is carried from one call to the next.
 */
module Cipher {
  import opened Wrappers

  type Bytes = seq<bv8>

  /** The `ValueError` raised when no key, or an empty key, has been received. */
  datatype CipherError = KeyNotReceived

  /** Python's `key * count`: `count` copies of `key`, back to back. */
  function Repeat(key: Bytes, count: nat): (r: Bytes)
    ensures |r| == |key| * count
  {
    if count == 0 then [] else key + Repeat(key, count - 1)
  }

  lemma {:induction false} MulAtLeast(d: int, k: int)
    requires d >= 1 && k > 0
    ensures d * k >= k
    decreases d
  {
    if d > 1 {
      MulAtLeast(d - 1, k);
      assert d * k == (d - 1) * k + k;
    }
  }

  /** Euclidean remainder is determined by any decomposition n == q * k + r with 0 <= r < k. */
  lemma ModUnique(n: int, k: int, q: int, r: int)
    requires k > 0 && 0 <= r < k && n == q * k + r
    ensures n % k == r
  {
    var q', r' := n / k, n % k;
    assert n == q' * k + r';
    assert (q - q') * k == r' - r;
    if q > q' { MulAtLeast(q - q', k); }
    if q < q' { MulAtLeast(q' - q, k); }
  }

  /** Shifting an index by a whole number of keys does not change its key position. */
  lemma ModShift(i: int, k: int, m: int)
    requires k > 0 && i >= 0 && m >= 0
    ensures (i + m * k) % k == i % k
  {
    var q, r := i / k, i % k;
    assert i == q * k + r;
    assert i + m * k == (q + m) * k + r;
    ModUnique(i + m * k, k, q + m, r);
  }

  /** Byte i of the repeated key is key byte i mod |key|. */
  lemma {:induction false} RepeatAt(key: Bytes, count: nat, i: nat)
    requires i < |key| * count
    ensures Repeat(key, count)[i] == key[i % |key|]
  {
    if i >= |key| {
      RepeatAt(key, count - 1, i - |key|);
      ModShift(i - |key|, |key|, 1);
    }
  }

  /** Python's `bytes(a ^ b for a, b in zip(data, stream))`: zip stops at the shorter input. */
  function XorZip(data: Bytes, stream: Bytes): (r: Bytes)
    ensures |r| == if |data| <= |stream| then |data| else |stream|
    ensures forall i :: 0 <= i < |r| ==> r[i] == data[i] ^ stream[i]
  {
    if data == [] || stream == [] then []
    else [data[0] ^ stream[0]] + XorZip(data[1..], stream[1..])
  }

  /** The keystream built for `n` data bytes: `key * (n // len(key) + 1)`, always longer than the data. */
  function Keystream(key: Bytes, n: nat): (ks: Bytes)
    requires |key| > 0
    ensures |ks| > n
  {
    var count := n / |key| + 1;
    assert |key| * count == |key| * (n / |key|) + |key|;
    Repeat(key, count)
  }

  /** The body of `xor_crypt` once a non-empty key is present. */
  function XorBytes(key: Bytes, data: Bytes): (r: Bytes)
    requires |key| > 0
    ensures |r| == |data|
  {
    XorZip(data, Keystream(key, |data|))
  }

  /** `xor_crypt`: fails when the key is absent or empty, otherwise obfuscates `data`. */
  function XorCrypt(key: Option<Bytes>, data: Bytes): (r: Result<Bytes, CipherError>)
    ensures r.Failure? <==> key.None? || key.value == []
  {
    if key.None? || key.value == [] then Failure(KeyNotReceived)
    else Success(XorBytes(key.value, data))
  }

  /** Byte i of the output is `data[i] ^ key[i % |key|]`: the keystream starts at key byte 0. */
  lemma XorByteAt(key: Bytes, data: Bytes, i: nat)
    requires |key| > 0 && i < |data|
    ensures |XorBytes(key, data)| == |data|
    ensures XorBytes(key, data)[i] == data[i] ^ key[i % |key|]
  {
    RepeatAt(key, |data| / |key| + 1, i);
  }

  /** The output is exactly as long as the input and byte i is `data[i] ^ key[i % |key|]`. */
  lemma XorBytesAt(key: Bytes, data: Bytes)
    requires |key| > 0
    ensures |XorBytes(key, data)| == |data|
    ensures forall i :: 0 <= i < |data| ==> XorBytes(key, data)[i] == data[i] ^ key[i % |key|]
  {
    forall i | 0 <= i < |data|
      ensures XorBytes(key, data)[i] == data[i] ^ key[i % |key|]
    {
      XorByteAt(key, data, i);
    }
  }

  /** Obfuscating twice with the same key gives back the input: the cipher is its own inverse. */
  lemma XorBytesInvolution(key: Bytes, data: Bytes)
    requires |key| > 0
    ensures XorBytes(key, XorBytes(key, data)) == data
  {
    var once := XorBytes(key, data);
    XorBytesAt(key, data);
    XorBytesAt(key, once);
    var twice := XorBytes(key, once);
    forall i | 0 <= i < |data|
      ensures twice[i] == data[i]
    {
      assert twice[i] == (data[i] ^ key[i % |key|]) ^ key[i % |key|];
    }
  }

  /** The same facts stated on `xor_crypt` itself: length, per-byte formula, round trip. */
  lemma XorCryptRoundTrip(key: Option<Bytes>, data: Bytes)
    requires key.Some? && key.value != []
    ensures XorCrypt(key, data).Success? && |XorCrypt(key, data).value| == |data|
    ensures forall i :: 0 <= i < |data| ==> XorCrypt(key, data).value[i] == data[i] ^ key.value[i % |key.value|]
    ensures XorCrypt(key, XorCrypt(key, data).value) == Success(data)
  {
    XorBytesAt(key.value, data);
    XorBytesInvolution(key.value, data);
  }

  /**
   * Obfuscating `a + b` in one call agrees with two separate calls if `a`
   * ends on a key boundary, since the second call starts again at key byte 0.
   */
  lemma XorBytesConcat(key: Bytes, a: Bytes, b: Bytes)
    requires |key| > 0 && |a| % |key| == 0
    ensures XorBytes(key, a + b) == XorBytes(key, a) + XorBytes(key, b)
  {
    var whole, left, right := XorBytes(key, a + b), XorBytes(key, a), XorBytes(key, b);
    XorBytesAt(key, a + b);
    XorBytesAt(key, a);
    XorBytesAt(key, b);
    forall i | 0 <= i < |whole|
      ensures whole[i] == (left + right)[i]
    {
      XorByteConcatAt(key, a, b, i);
    }
  }

  lemma XorByteConcatAt(key: Bytes, a: Bytes, b: Bytes, i: int)
    requires |key| > 0 && |a| % |key| == 0 && 0 <= i < |a| + |b|
    ensures |XorBytes(key, a + b)| == |a| + |b|
    ensures XorBytes(key, a + b)[i] == (XorBytes(key, a) + XorBytes(key, b))[i]
  {
    XorBytesAt(key, a + b);
    XorBytesAt(key, a);
    XorBytesAt(key, b);
    if i >= |a| {
      BoundaryShift(|key|, |a|, i);
      assert (a + b)[i] == b[i - |a|];
    } else {
      assert (a + b)[i] == a[i];
    }
  }

  lemma BoundaryShift(k: int, n: int, i: int)
    requires k > 0 && n >= 0 && n % k == 0 && i >= n
    ensures (i - n) % k == i % k
  {
    var m := n / k;
    assert n == m * k;
    ModShift(i - n, k, m);
  }

  /**
   * A keystream that continued across calls would give different bytes:
   * with key [1, 2], two one-byte calls both use key byte 1.
   */
  lemma KeystreamRestartsEachCall()
    ensures XorBytes([1, 2], [0]) + XorBytes([1, 2], [0]) == [1, 1]
    ensures XorBytes([1, 2], [0, 0]) == [1, 2]
  {
    XorBytesAt([1, 2], [0]);
    XorBytesAt([1, 2], [0, 0]);
  }
}
