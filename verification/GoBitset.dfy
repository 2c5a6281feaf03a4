/** `createBitset` of go/cagra/cagra.go. For an unsigned id, `id >> 5` is id / 32 and `id & 31` is id % 32. */
module GoBitset {
  import opened Common

  newtype uint32 = x: int | 0 <= x < 0x1_0000_0000

  // ---------------------------------------------------------------- words

  /** A 32-bit word as its bits, the lowest one first. */
  type Word = w: seq<bool> | |w| == 32 witness seq(32, _ => false)

  const ZERO: Word := seq(32, _ => false)

  /** `1 << p` */
  function Shifted(p: nat): Word { seq(32, q => q == p) }

  function Or(x: Word, y: Word): Word { seq(32, q requires 0 <= q < 32 => x[q] || y[q]) }

  /** The number that the bits stand for. */
  function Number(bits: seq<bool>): nat {
    if bits == [] then 0 else (if bits[0] then 1 else 0) + 2 * Number(bits[1..])
  }

  function Pow2(n: nat): (p: nat)
    ensures p > 0
  {
    if n == 0 then 1 else 2 * Pow2(n - 1)
  }

  /** Bit q of a word is the one that a shift of its number by q brings to the lowest place. */
  lemma {:induction false} BitOfNumber(bits: seq<bool>, q: nat)
    requires q < |bits|
    ensures bits[q] <==> Number(bits) / Pow2(q) % 2 == 1
  {
    var b, rest := if bits[0] then 1 else 0, Number(bits[1..]);
    if q == 0 {
      DivMod(rest, 2, b);
      assert Number(bits) / 1 == Number(bits);
    } else {
      BitOfNumber(bits[1..], q - 1);
      Halved(b, rest, Pow2(q - 1));
    }
  }

  lemma Halved(b: nat, n: nat, m: nat)
    requires b < 2 && m > 0
    ensures (b + 2 * n) / (2 * m) == n / m
  {
    var q, r := n / m, n % m;
    assert b + 2 * n == q * (2 * m) + (b + 2 * r);
    DivMod(q, 2 * m, b + 2 * r);
  }

  // ---------------------------------------------------------------- the array

  function IndexOf(id: uint32): nat { id as int / 32 }

  function Position(id: uint32): nat { id as int % 32 }

  /** Whether the bit of an id is set; ids beyond the array have none. */
  ghost predicate Bit(bitset: seq<Word>, id: uint32) {
    IndexOf(id) < |bitset| && bitset[IndexOf(id)][Position(id)]
  }

  lemma WordSet(before: seq<Word>, id: uint32, other: uint32)
    requires IndexOf(id) < |before|
    ensures Bit(before[IndexOf(id) := Or(before[IndexOf(id)], Shifted(Position(id)))], other) <==>
      Bit(before, other) || other == id
  {
    assert IndexOf(id) == IndexOf(other) && Position(id) == Position(other) ==> id == other;
  }

  lemma NothingSet(bitset: seq<Word>, id: uint32)
    requires forall j :: 0 <= j < |bitset| ==> bitset[j] == ZERO
    ensures !Bit(bitset, id)
  {}

  /** The least number of words that has a place for every listed id, and at least one word. */
  ghost predicate Fits(words: nat, allowList: seq<uint32>) {
    && words >= 1
    && (forall id :: id in allowList ==> IndexOf(id) < words)
    && (words > 1 ==> exists id :: id in allowList && IndexOf(id) == words - 1)
  }

  method MaxId(allowList: seq<uint32>) returns (maxID: uint32)
    ensures forall id :: id in allowList ==> id <= maxID
    ensures maxID == 0 || maxID in allowList
  {
    maxID := 0;
    for k := 0 to |allowList|
      invariant forall j :: 0 <= j < k ==> allowList[j] <= maxID
      invariant maxID == 0 || maxID in allowList
    {
      if allowList[k] > maxID { maxID := allowList[k]; }
    }
  }

  /** Among all ids, exactly the listed ones have their bit set, in whatever order and however often they
      are listed. */
  method CreateBitset(allowList: seq<uint32>) returns (bitset: array<Word>)
    ensures fresh(bitset) && Fits(bitset.Length, allowList)
    ensures forall id :: Bit(bitset[..], id) <==> id in allowList
    ensures forall id :: id in allowList <==>
      id as int / 32 < bitset.Length && Number(bitset[id as int / 32]) / Pow2(id as int % 32) % 2 == 1
  {
    hide Bit, Or, Shifted, Number;
    var maxID := MaxId(allowList);
    var size := IndexOf(maxID) + 1;
    bitset := new Word[size];
    for i := 0 to size
      invariant forall j :: 0 <= j < i ==> bitset[j] == ZERO
    {
      bitset[i] := ZERO;
    }
    forall id ensures !Bit(bitset[..], id) { NothingSet(bitset[..], id); }
    for k := 0 to |allowList|
      invariant forall id :: Bit(bitset[..], id) <==> id in allowList[..k]
    {
      var id := allowList[k];
      assert id in allowList;
      ghost var before := bitset[..];
      bitset[IndexOf(id)] := Or(bitset[IndexOf(id)], Shifted(Position(id)));
      assert bitset[..] == before[IndexOf(id) := Or(before[IndexOf(id)], Shifted(Position(id)))];
      forall other ensures Bit(bitset[..], other) <==> Bit(before, other) || other == id { WordSet(before, id, other); }
      assert allowList[..k + 1] == allowList[..k] + [id];
    }
    assert allowList[..|allowList|] == allowList;
    forall id ensures Bit(bitset[..], id) <==>
      id as int / 32 < bitset.Length && Number(bitset[id as int / 32]) / Pow2(id as int % 32) % 2 == 1
    {
      BitExactly(bitset[..], id);
    }
  }

  lemma BitExactly(bitset: seq<Word>, id: uint32)
    ensures Bit(bitset, id) <==>
      id as int / 32 < |bitset| && Number(bitset[id as int / 32]) / Pow2(id as int % 32) % 2 == 1
  {
    if id as int / 32 < |bitset| { BitOfNumber(bitset[id as int / 32], id as int % 32); }
  }
}
