/**
 * The XOR decoder of graphix_zx/decoder_backend.py: the parity of all input
 * classical bits, broadcast to every requested output bit position.
 *
 * The input mapping is given as the sequence of its (position, value) entries
 * in iteration order; the output is a map keyed by the output positions.
 */
module Decoder {

  /** The values of a mapping's entries, in iteration order. */
  function Values(entries: seq<(int, bool)>): (vs: seq<bool>)
    ensures |vs| == |entries|
    ensures forall i :: 0 <= i < |entries| ==> vs[i] == entries[i].1
  {
    if entries == [] then [] else [entries[0].1] + Values(entries[1..])
  }

  /** Left fold of exclusive-or over `bits`, starting from `acc`. */
  function XorFold(acc: bool, bits: seq<bool>): bool
    decreases |bits|
  {
    if bits == [] then acc else XorFold(acc != bits[0], bits[1..])
  }

  /** Number of true bits. */
  function CountTrue(bits: seq<bool>): nat
  {
    if bits == [] then 0 else (if bits[0] then 1 else 0) + CountTrue(bits[1..])
  }

  /** The fold computes the parity of the number of true bits. */
  lemma {:induction false} XorFoldIsParity(acc: bool, bits: seq<bool>)
    ensures XorFold(acc, bits) == (acc != (CountTrue(bits) % 2 == 1))
    decreases |bits|
  {
    if bits != [] {
      XorFoldIsParity(acc != bits[0], bits[1..]);
    }
  }

  /** The number of true bits is the multiplicity of `true` in the multiset of bits. */
  lemma {:induction false} CountTrueIsMultiplicity(bits: seq<bool>)
    ensures CountTrue(bits) == multiset(bits)[true]
  {
    if bits != [] {
      CountTrueIsMultiplicity(bits[1..]);
      assert bits == [bits[0]] + bits[1..];
      assert multiset(bits) == multiset([bits[0]]) + multiset(bits[1..]);
    }
  }

  /**
   * XORDecoder.decode: the parity of the input bits, stored under every output
   * position (repeated positions collapse to one key).
   */
  function Decode(inputCbits: seq<(int, bool)>, outputCbits: seq<int>): (r: map<int, bool>)
    ensures r.Keys == set k | k in outputCbits
    ensures forall k :: k in r ==> r[k] == (CountTrue(Values(inputCbits)) % 2 == 1)
  {
    var result := XorFold(false, Values(inputCbits));
    XorFoldIsParity(false, Values(inputCbits));
    map k | k in outputCbits :: result
  }

  /** With no input bits every output bit decodes to false. */
  lemma DecodeEmpty(outputCbits: seq<int>)
    ensures forall k :: k in Decode([], outputCbits) ==> !Decode([], outputCbits)[k]
  {
  }

  /** The decoded bits do not depend on the order in which the input entries are visited. */
  lemma {:induction false} DecodeOrderIndependent(a: seq<(int, bool)>, b: seq<(int, bool)>, outputCbits: seq<int>)
    requires multiset(Values(a)) == multiset(Values(b))
    ensures Decode(a, outputCbits) == Decode(b, outputCbits)
  {
    CountTrueIsMultiplicity(Values(a));
    CountTrueIsMultiplicity(Values(b));
  }
}
