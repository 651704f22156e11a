/**
 * `cyrb53`: a 53-bit string hash built from 32-bit multiply, xor and shift
 * steps, and the identity function that replaces it when `LOG_NO_ENCODE` is
 * set.
 *
 * `Math.imul` is multiplication modulo 2^32 and `>>>` a logical shift, so the
 * two running words are `bv32` values and the arithmetic is exactly Dafny's
 * `bv32` arithmetic. The string is read as UTF-16 code units, as
 * `charCodeAt` reads it; `CodeUnits` encodes a Dafny string that way. The
 * seed enters only through `^`, so it is its 32-bit pattern (ToInt32).
 */
module Cyrb53 {
  import opened Wrappers
  import opened Utf16

  /** The two running words of the hash. */
  datatype State = State(h1: bv32, h2: bv32)

  /** The words before any character is mixed in. */
  function Start(seed: bv32): State
  {
    State(0xdeadbeef ^ seed, 0x41c6ce57 ^ seed)
  }

  /** One turn of the loop: a code unit mixed into both words. */
  function Absorb(st: State, ch: bv16): State
  {
    State((st.h1 ^ ch as bv32) * 2654435761, (st.h2 ^ ch as bv32) * 1597334677)
  }

  /** The words after the first `n` code units have been mixed in, the one at index 0 first. */
  function AbsorbUpTo(st: State, s: seq<bv16>, n: nat): State
    requires n <= |s|
  {
    if n == 0 then st else Absorb(AbsorbUpTo(st, s, n - 1), s[n - 1])
  }

  function AbsorbAll(st: State, s: seq<bv16>): State
  {
    AbsorbUpTo(st, s, |s|)
  }

  /** A reference reading of the loop: mix in the first code unit, then the rest. */
  function AbsorbFrom(st: State, s: seq<bv16>): State
    decreases |s|
  {
    if s == [] then st else AbsorbFrom(Absorb(st, s[0]), s[1..])
  }

  /** The two lines after the loop: each word is folded with its own shift and then with the other word. */
  function Finish(st: State): State
  {
    var h1 := ((st.h1 ^ (st.h1 >> 16)) * 2246822507) ^ ((st.h2 ^ (st.h2 >> 13)) * 3266489909);
    var h2 := ((st.h2 ^ (st.h2 >> 16)) * 2246822507) ^ ((h1 ^ (h1 >> 13)) * 3266489909);
    State(h1, h2)
  }

  /** The final words for a string and seed. */
  function Final(s: seq<bv16>, seed: bv32): State
  {
    Finish(AbsorbAll(Start(seed), s))
  }


  /** `h >>> 0`: a word read as an unsigned number. */
  function Unsigned(h: bv32): (r: nat)
    ensures r < 0x1_0000_0000
  {
    h as int
  }

  /** `2097151 & h2`: the 21 low bits of a word, as a number. */
  function Low21(h: bv32): (r: nat)
    ensures r < 0x200000
  {
    ((h & 0x1FFFFF) as bv21) as int
  }

  /**
   * `4294967296 * (2097151 & h2) + (h1 >>> 0)`: the 21 masked bits of `h2`
   * above the 32 bits of `h1` read as unsigned. The result is below 2^53, its
   * low 32 bits are `h1` and the part above them is `h2` masked to 21 bits.
   */
  function Combine(st: State): (r: nat)
    ensures r < 0x20_0000_0000_0000
    ensures r % 0x1_0000_0000 == Unsigned(st.h1) && r / 0x1_0000_0000 == Low21(st.h2)
  {
    var hi := Low21(st.h2);
    var lo := Unsigned(st.h1);
    Split(hi, lo);
    0x1_0000_0000 * hi + lo
  }

  /**
   * The hash of a string: a non-negative integer below 2^53, whose low 32 bits
   * are the final `h1` read as unsigned and whose high part is the final `h2`
   * masked to 21 bits.
   */
  function Hash(s: seq<bv16>, seed: bv32): (r: nat)
    ensures r < 0x20_0000_0000_0000
    ensures r % 0x1_0000_0000 == Unsigned(Final(s, seed).h1)
    ensures r / 0x1_0000_0000 == Low21(Final(s, seed).h2)
  {
    Combine(Final(s, seed))
  }

  lemma Split(hi: nat, lo: nat)
    requires hi < 0x200000 && lo < 0x1_0000_0000
    ensures 0x1_0000_0000 * hi + lo < 0x20_0000_0000_0000
    ensures (0x1_0000_0000 * hi + lo) % 0x1_0000_0000 == lo && (0x1_0000_0000 * hi + lo) / 0x1_0000_0000 == hi
  {
  }

  /** The loop of `cyrb53` over the code units, then the final mixing and the 53-bit result. */
  method HashLoop(str: seq<bv16>, seed: bv32) returns (h: nat)
    ensures h == Hash(str, seed)
    ensures h < 0x20_0000_0000_0000
  {
    var h1: bv32 := 0xdeadbeef ^ seed;
    var h2: bv32 := 0x41c6ce57 ^ seed;
    for i := 0 to |str|
      invariant State(h1, h2) == AbsorbUpTo(Start(seed), str, i)
    {
      var next := Absorb(State(h1, h2), str[i]);
      h1, h2 := next.h1, next.h2;
    }
    var last := Finish(State(h1, h2));
    h := Combine(last);
  }

  lemma {:induction false} AbsorbUpToPrefix(st: State, a: seq<bv16>, b: seq<bv16>, n: nat)
    requires n <= |a| && n <= |b|
    requires forall i :: 0 <= i < n ==> a[i] == b[i]
    ensures AbsorbUpTo(st, a, n) == AbsorbUpTo(st, b, n)
  {
    if n > 0 {
      AbsorbUpToPrefix(st, a, b, n - 1);
    }
  }

  /** Mixing in two strings one after the other is mixing in their concatenation. */
  lemma {:induction false} AbsorbAppend(st: State, a: seq<bv16>, b: seq<bv16>)
    ensures AbsorbAll(st, a + b) == AbsorbAll(AbsorbAll(st, a), b)
    decreases |b|
  {
    if b == [] {
      assert a + b == a;
    } else {
      var b' := b[..|b| - 1];
      var x := AbsorbAll(st, a);
      AbsorbAppend(st, a, b');
      AbsorbUpToPrefix(st, a + b, a + b', |a + b'|);
      AbsorbUpToPrefix(x, b, b', |b'|);
      calc {
        AbsorbAll(st, a + b);
        Absorb(AbsorbUpTo(st, a + b, |a + b'|), b[|b| - 1]);
        Absorb(AbsorbAll(st, a + b'), b[|b| - 1]);
        Absorb(AbsorbAll(x, b'), b[|b| - 1]);
        Absorb(AbsorbUpTo(x, b, |b'|), b[|b| - 1]);
        AbsorbAll(x, b);
      }
    }
  }

  /** Every code unit is mixed in exactly once, in index order from the first to the last. */
  lemma {:induction false} AbsorbInIndexOrder(st: State, s: seq<bv16>)
    ensures AbsorbAll(st, s) == AbsorbFrom(st, s)
    decreases |s|
  {
    if s != [] {
      assert s == [s[0]] + s[1..];
      AbsorbAppend(st, [s[0]], s[1..]);
      assert AbsorbAll(st, [s[0]]) == Absorb(AbsorbUpTo(st, [s[0]], 0), s[0]);
      AbsorbInIndexOrder(Absorb(st, s[0]), s[1..]);
    }
  }

  /** The hash of the empty string mixes nothing in: it is a function of the seed alone. */
  lemma EmptyHashDependsOnSeedOnly(seed: bv32)
    ensures Hash([], seed) == Combine(Finish(Start(seed)))
  {
  }

  /** How `cyrb53` is bound when the logger loads. */
  datatype Encoder = Hashing | Identity

  /** `LOG_NO_ENCODE` is tested for truthiness: unset and the empty string both keep the hash. */
  function EncoderFor(noEncode: Option<string>): (e: Encoder)
    ensures e == Identity <==> (noEncode.Some? && noEncode.value != "")
  {
    if noEncode.Some? && noEncode.value != "" then Identity else Hashing
  }

  /** What the bound `cyrb53` returns: a number, or, for the identity variant, its argument. */
  datatype Encoded = Hashed(n: nat) | Unchanged(s: string)

  /** The code units of a string as the 16-bit words the hash mixes in. */
  function UnitWords(s: string): (r: seq<bv16>)
    ensures |r| == |CodeUnits(s)|
  {
    var u := CodeUnits(s);
    seq(|u|, i requires 0 <= i < |u| => u[i] as bv16)
  }

  /** Calling the bound `cyrb53`; the hash reads the string's UTF-16 code units. */
  function Encode(e: Encoder, str: string, seed: bv32): (r: Encoded)
    ensures e == Identity ==> r == Unchanged(str)
    ensures e == Hashing ==> r.Hashed? && r.n < 0x20_0000_0000_0000
  {
    match e
    case Identity => Unchanged(str)
    case Hashing => Hashed(Hash(UnitWords(str), seed))
  }
}
