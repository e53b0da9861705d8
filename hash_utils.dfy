/** `HashTracker` (headless_cms/utils/hash_utils.py): one hasher is fed
    every piece of data in turn, and the tracked hash is the bytewise XOR
    of the digests taken after each piece. The hash algorithm is a
    parameter: `digest(data)` stands for the digest of a fresh hasher fed
    the UTF-8 encoding of `data`, so feeding `a` then `b` gives
    `digest(a + b)`. */
module HashUtils {
  import opened Common

  /** The digest of everything fed so far. */
  type Digest = string -> seq<bv8>

  /** All pieces of data, in the order they were fed. */
  function Concat(log: seq<string>): string
    decreases |log|
  {
    if log == [] then "" else Concat(log[..|log| - 1]) + log[|log| - 1]
  }

  function Min(a: nat, b: nat): nat {
    if a <= b then a else b
  }

  /** `_combine_hashes`: `bytes(a ^ b for a, b in zip(hash1, hash2))`, which
      stops at the end of the shorter one. */
  function Combine(h1: seq<bv8>, h2: seq<bv8>): (h: seq<bv8>)
    ensures |h| == Min(|h1|, |h2|)
  {
    seq(Min(|h1|, |h2|), i requires 0 <= i < Min(|h1|, |h2|) => h1[i] ^ h2[i])
  }

  /** The hash `update_hash` has built after the non-`None` pieces `log`:
      nothing before the first, then that piece's digest, then each later
      cumulative digest combined in. */
  function Accumulated(digest: Digest, log: seq<string>): Option<seq<bv8>>
    decreases |log|
  {
    if log == [] then None
    else
      var prev := Accumulated(digest, log[..|log| - 1]);
      var d := digest(Concat(log));
      if prev.None? then Some(d) else Some(Combine(prev.value, d))
  }

  /** Combining is symmetric. */
  lemma CombineCommutes(h1: seq<bv8>, h2: seq<bv8>)
    ensures Combine(h1, h2) == Combine(h2, h1)
  {
    assert forall i :: 0 <= i < Min(|h1|, |h2|) ==> h1[i] ^ h2[i] == h2[i] ^ h1[i];
  }

  /** Combining a digest in twice cancels it, up to the shorter length. */
  lemma CombineCancels(h1: seq<bv8>, h2: seq<bv8>)
    ensures Combine(Combine(h1, h2), h2) == h1[..Min(|h1|, |h2|)]
  {
    var c := Combine(Combine(h1, h2), h2);
    forall i | 0 <= i < |c|
      ensures c[i] == h1[i]
    {
      assert c[i] == (h1[i] ^ h2[i]) ^ h2[i];
    }
  }

  /** There is a hash exactly once some non-`None` data was fed. */
  lemma {:induction false} AccumulatedPresent(digest: Digest, log: seq<string>)
    ensures Accumulated(digest, log).Some? <==> log != []
  {
  }

  /** With an algorithm whose digests all have `n` bytes, so does the hash. */
  lemma {:induction false} AccumulatedLength(digest: Digest, log: seq<string>, n: nat)
    requires log != [] && forall s :: |digest(s)| == n
    ensures |Accumulated(digest, log).value| == n
    decreases |log|
  {
    var init := log[..|log| - 1];
    if init != [] {
      AccumulatedLength(digest, init, n);
    }
  }

  /** Every byte of the hash is the XOR of that byte of the digests taken
      after each piece: each digest covers all the data fed up to it. */
  lemma {:induction false} AccumulatedBytes(digest: Digest, log: seq<string>, i: nat)
    requires log != [] && Accumulated(digest, log).Some? && i < |Accumulated(digest, log).value|
    ensures Accumulated(digest, log).value[i] == XorAt(digest, log, i)
    decreases |log|
  {
    var init := log[..|log| - 1];
    if init != [] {
      AccumulatedPresent(digest, init);
      AccumulatedBytes(digest, init, i);
    }
  }

  /** The XOR of byte `i` of the cumulative digests (each long enough). */
  function XorAt(digest: Digest, log: seq<string>, i: nat): bv8
    decreases |log|
  {
    if log == [] then 0
    else
      var d := digest(Concat(log));
      XorAt(digest, log[..|log| - 1], i) ^ (if i < |d| then d[i] else 0)
  }

  // ---------------------------------------------------------------------
  // `bytes.hex()`

  const HEX_DIGITS: string := "0123456789abcdef"

  function HexDigit(n: nat): char
    requires n < 16
  {
    HEX_DIGITS[n]
  }

  /** The value of a lower-case hexadecimal digit. */
  function DigitValue(c: char): (n: nat)
    ensures n < 16
  {
    if '0' <= c <= '9' then c as nat - '0' as nat
    else if 'a' <= c <= 'f' then c as nat - 'a' as nat + 10
    else 0
  }

  lemma DigitRoundTrip(n: nat)
    requires n < 16
    ensures DigitValue(HexDigit(n)) == n
  {
  }

  /** The two digits of one byte, high nibble first. */
  function HexByte(x: bv8): (s: string)
    ensures |s| == 2 && s[0] in HEX_DIGITS && s[1] in HEX_DIGITS
  {
    [HexDigit(x as nat / 16), HexDigit(x as nat % 16)]
  }

  /** The byte value two digits stand for. */
  function ByteOf(hi: char, lo: char): nat {
    DigitValue(hi) * 16 + DigitValue(lo)
  }

  /** Python's view of `bytes` as a sequence of integers. */
  function Values(b: seq<bv8>): (vs: seq<nat>)
    ensures |vs| == |b| && forall i :: 0 <= i < |b| ==> vs[i] == b[i] as nat
  {
    seq(|b|, i requires 0 <= i < |b| => b[i] as nat)
  }

  lemma ByteRoundTrip(x: bv8)
    ensures ByteOf(HexByte(x)[0], HexByte(x)[1]) == x as nat
  {
    var v := x as nat;
    DigitRoundTrip(v / 16);
    DigitRoundTrip(v % 16);
    assert v / 16 * 16 + v % 16 == v;
  }

  /** `bytes.hex()`: two lower-case digits per byte. */
  function Hex(b: seq<bv8>): (s: string)
    ensures |s| == 2 * |b|
    ensures forall k :: 0 <= k < |s| ==> s[k] in HEX_DIGITS
  {
    if b == [] then "" else HexByte(b[0]) + Hex(b[1..])
  }

  /** `bytes.fromhex` on lower-case digits, as integers. */
  function FromHex(s: string): seq<nat>
    decreases |s|
  {
    if |s| < 2 then [] else [ByteOf(s[0], s[1])] + FromHex(s[2..])
  }

  /** The hexadecimal form loses nothing: decoding it gives back the bytes. */
  lemma {:induction false} HexRoundTrip(b: seq<bv8>)
    ensures FromHex(Hex(b)) == Values(b)
    decreases |b|
  {
    if b != [] {
      var s := Hex(b);
      ByteRoundTrip(b[0]);
      assert s[2..] == Hex(b[1..]);
      HexRoundTrip(b[1..]);
      assert Values(b) == [b[0] as nat] + Values(b[1..]);
    }
  }

  class HashTracker {
    /** The algorithm's name and the digest it computes. */
    const algo: string
    const digest: Digest
    /** All data fed to `self.hasher`. */
    var fed: string
    /** `_current_hash`. */
    var currentHash: Option<seq<bv8>>
    /** The non-`None` pieces passed to `update_hash`, in order. */
    ghost var log: seq<string>

    ghost predicate Valid()
      reads this
    {
      fed == Concat(log) && currentHash == Accumulated(digest, log)
    }

    /** `__init__`: a fresh hasher and no hash, then one update with the
        initial data when there is some. */
    constructor(initialData: Option<string>, algo: string, digest: Digest)
      ensures Valid() && this.algo == algo && this.digest == digest
      ensures log == (if initialData.Some? then [initialData.value] else [])
    {
      this.algo := algo;
      this.digest := digest;
      fed := "";
      currentHash := None;
      log := [];
      new;
      UpdateHash(initialData);
    }

    /** `_hash_function`: the data is fed to the hasher, whose digest then
        covers everything fed so far. */
    method HashFunction(data: string) returns (h: seq<bv8>)
      modifies this`fed
      ensures fed == old(fed) + data && h == digest(fed)
    {
      fed := fed + data;
      h := digest(fed);
    }

    /** `update_hash`: `None` changes nothing; anything else is fed to the
        hasher and its digest becomes the hash, or is combined into it. */
    method UpdateHash(newData: Option<string>)
      requires Valid()
      modifies this
      ensures Valid()
      ensures newData.None? ==> log == old(log) && fed == old(fed) && currentHash == old(currentHash)
      ensures newData.Some? ==> log == old(log) + [newData.value]
    {
      if newData.None? {
        return;
      }
      log := log + [newData.value];
      assert log[..|log| - 1] == old(log);
      var newHash := HashFunction(newData.value);
      if currentHash.None? {
        currentHash := Some(newHash);
      } else {
        currentHash := Some(Combine(currentHash.value, newHash));
      }
    }

    /** `current_hash`: the hexadecimal form of the hash, `None` while there
        is none or it is empty. */
    function CurrentHash(): (h: Option<string>)
      reads this
      ensures h.Some? <==> currentHash.Some? && currentHash.value != []
      ensures h.Some? ==> FromHex(h.value) == Values(currentHash.value)
      ensures h.Some? ==> |h.value| == 2 * |currentHash.value|
      ensures h.Some? ==> forall k :: 0 <= k < |h.value| ==> h.value[k] in HEX_DIGITS
    {
      if currentHash.Some? && currentHash.value != [] then
        HexRoundTrip(currentHash.value);
        Some(Hex(currentHash.value))
      else None
    }
  }

  /** Constructing with initial data is constructing empty and then
      updating once with it. */
  method InitialDataIsAnUpdate(data: string, algo: string, digest: Digest)
    returns (a: HashTracker, b: HashTracker)
    ensures a.fed == b.fed && a.currentHash == b.currentHash && a.CurrentHash() == b.CurrentHash()
    ensures a.currentHash == Some(digest(data))
  {
    a := new HashTracker(Some(data), algo, digest);
    b := new HashTracker(None, algo, digest);
    b.UpdateHash(Some(data));
    assert a.log == b.log == [data];
    assert Concat([data]) == data by {
      assert [data][..0] == [];
    }
  }
}
