/** 64-bit FNV-1a, the hash behind the flow key: per byte, exclusive-or into the
    state and multiply by 1099511628211 modulo 2^64. */
module Fnv {
  import opened Bytes

  const OFFSET_BASIS: bv64 := 14695981039346656037

  function Xor(h: bv64, b: byte): bv64 {
    h ^ (b as bv64)
  }

  /** Multiplication by the FNV prime, and by its inverse modulo 2^64. */
  function Mix(h: bv64): bv64 {
    h * 1099511628211
  }

  function Unmix(h: bv64): bv64 {
    h * 0xce965057aff6957b
  }

  function Step(h: bv64, b: byte): bv64 {
    Mix(Xor(h, b))
  }

  function StepBack(h: bv64, b: byte): bv64 {
    Xor(Unmix(h), b)
  }

  /** The state after the bytes of `v`, the first byte first. */
  function Feed(h: bv64, v: seq<byte>): bv64
    decreases |v|
  {
    if |v| == 0 then h else Feed(Step(h, v[0]), v[1..])
  }

  /** Undoes Feed: consumes the bytes of `v` from the last to the first. */
  function Rewind(h: bv64, v: seq<byte>): bv64
    decreases |v|
  {
    if |v| == 0 then h else StepBack(Rewind(h, v[1..]), v[0])
  }

  function Hash(v: seq<byte>): bv64 {
    Feed(OFFSET_BASIS, v)
  }

  lemma UnmixMix(h: bv64)
    ensures Unmix(Mix(h)) == h
  {
    assert Unmix(h * 1099511628211) == h;
  }

  lemma XorTwice(h: bv64, b: byte)
    ensures Xor(Xor(h, b), b) == h
  {
  }

  lemma XorSeparates(h: bv64, a: byte, b: byte)
    requires Xor(h, a) == Xor(h, b)
    ensures a == b
  {
  }

  lemma StepIsReversible(h: bv64, b: byte)
    ensures StepBack(Step(h, b), b) == h
  {
    UnmixMix(Xor(h, b));
    XorTwice(h, b);
  }

  lemma StepSeparates(h: bv64, a: byte, b: byte)
    requires Step(h, a) == Step(h, b)
    ensures a == b
  {
    UnmixMix(Xor(h, a));
    UnmixMix(Xor(h, b));
    XorSeparates(h, a, b);
  }

  lemma {:induction false} FeedConcat(h: bv64, v: seq<byte>, w: seq<byte>)
    ensures Feed(h, v + w) == Feed(Feed(h, v), w)
    decreases |v|
  {
    if |v| == 0 {
      assert v + w == w;
    } else {
      assert (v + w)[1..] == v[1..] + w;
      FeedConcat(Step(h, v[0]), v[1..], w);
    }
  }

  /** The multiplication of FNV-1a. */
  lemma MixMultiplies(h: bv64)
    ensures Mix(h) == h * 1099511628211
  {
  }

  lemma StepIsXorThenMultiply(h: bv64, b: byte)
    ensures Step(h, b) == Mix(h ^ (b as bv64))
  {
  }

  lemma FeedOne(h: bv64, b: byte)
    ensures Feed(h, [b]) == Step(h, b)
  {
    assert [b][1..] == [];
  }

  /** FNV-1a: from the offset basis, each byte is xored into the state, then the state is
      multiplied by the prime. */
  lemma HashIsFnv1a(v: seq<byte>, b: byte)
    ensures Hash([]) == 14695981039346656037
    ensures Hash(v + [b]) == Mix(Hash(v) ^ (b as bv64))
  {
    FeedConcat(OFFSET_BASIS, v, [b]);
    FeedOne(Hash(v), b);
    StepIsXorThenMultiply(Hash(v), b);
  }

  /** The published values of "a" and "foobar". */
  lemma PublishedHashes()
    ensures Hash([0x61]) == 0xaf63dc4c8601ec8c
    ensures Hash([0x66, 0x6f, 0x6f, 0x62, 0x61, 0x72]) == 0x85944171f73967e8
  {
  }

  /** Hashing loses nothing: the starting state is recovered from the result
      and the bytes, whatever their number. */
  lemma {:induction false} FeedIsReversible(h: bv64, v: seq<byte>)
    ensures Rewind(Feed(h, v), v) == h
    decreases |v|
  {
    if |v| > 0 {
      FeedIsReversible(Step(h, v[0]), v[1..]);
      StepIsReversible(h, v[0]);
    }
  }

  /** Two strings of the same length that differ in at most one place have the
      same hash exactly when they do not differ at all. */
  lemma OneByteSeparates(h: bv64, prefix: seq<byte>, a: byte, b: byte, suffix: seq<byte>)
    ensures Feed(h, prefix + [a] + suffix) == Feed(h, prefix + [b] + suffix) <==> a == b
  {
    if Feed(h, prefix + [a] + suffix) == Feed(h, prefix + [b] + suffix) {
      FeedConcat(h, prefix + [a], suffix);
      FeedConcat(h, prefix + [b], suffix);
      FeedIsReversible(Feed(h, prefix + [a]), suffix);
      FeedIsReversible(Feed(h, prefix + [b]), suffix);
      FeedConcat(h, prefix, [a]);
      FeedConcat(h, prefix, [b]);
      StepSeparates(Feed(h, prefix), a, b);
    }
  }

  /** The streaming hasher: `state` accumulates what has been written. */
  class Hasher {
    var state: bv64

    constructor New64a()
      ensures state == OFFSET_BASIS
    {
      state := OFFSET_BASIS;
    }

    method Write(value: seq<byte>)
      modifies this
      ensures state == Feed(old(state), value)
    {
      var i := 0;
      while i < |value|
        invariant 0 <= i <= |value|
        invariant state == Feed(old(state), value[..i])
      {
        FeedConcat(old(state), value[..i], [value[i]]);
        assert value[..i + 1] == value[..i] + [value[i]];
        state := Mix(Xor(state, value[i]));
        i := i + 1;
      }
      assert value[..i] == value;
    }
  }

  /** The `hash` helper: a fresh hasher, one write, the sum. */
  method HashBytes(value: seq<byte>) returns (sum: bv64)
    ensures sum == Hash(value)
  {
    var hasher := new Hasher.New64a();
    hasher.Write(value);
    sum := hasher.state;
  }
}
