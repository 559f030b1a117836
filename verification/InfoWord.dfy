/** Eight info bytes as one 64-bit word. */
module InfoWord {
  /** Half of a byte, or of all the bytes of a word at once. */
  function Half(b: bv8): (r: bv8)
    ensures r as int == b as int / 2
  {
    b >> 1
  }

  function HalfWord(word: bv64): bv64 {
    (word >> 1) & 0x7f7f7f7f7f7f7f7f
  }

  /** A byte with one more bit on its right. */
  function Appended(b: bv8, one: bool): (r: bv8)
    requires b as int < 128
    ensures r as int == 2 * b as int + if one then 1 else 0
  {
    (b << 1) | if one then 1 else 0
  }

  function AsByte(b: int): (r: bv8)
    requires 0 <= b <= 0xFF
    ensures r as int == b
  {
    hide Appended;
    if b == 0 then 0 else Appended(AsByte(b / 2), b % 2 == 1)
  }

  /** The word of eight bytes, the first one lowest. */
  function Packed(b0: bv8, b1: bv8, b2: bv8, b3: bv8, b4: bv8, b5: bv8, b6: bv8, b7: bv8): bv64 {
    (b0 as bv64) | ((b1 as bv64) << 8) | ((b2 as bv64) << 16) | ((b3 as bv64) << 24)
    | ((b4 as bv64) << 32) | ((b5 as bv64) << 40) | ((b6 as bv64) << 48) | ((b7 as bv64) << 56)
  }

  function ByteOf(word: bv64, k: nat): bv8
    requires k < 8
  {
    match k
    case 0 => (word & 0xff) as bv8
    case 1 => ((word >> 8) & 0xff) as bv8
    case 2 => ((word >> 16) & 0xff) as bv8
    case 3 => ((word >> 24) & 0xff) as bv8
    case 4 => ((word >> 32) & 0xff) as bv8
    case 5 => ((word >> 40) & 0xff) as bv8
    case 6 => ((word >> 48) & 0xff) as bv8
    case _ => ((word >> 56) & 0xff) as bv8
  }

  /** What is loaded from eight bytes. */
  function Loaded(info: seq<int>, i: nat): bv64
    requires i + 8 <= |info| && forall k :: i <= k < i + 8 ==> 0 <= info[k] <= 0xFF
  {
    Packed(AsByte(info[i]), AsByte(info[i + 1]), AsByte(info[i + 2]), AsByte(info[i + 3]),
           AsByte(info[i + 4]), AsByte(info[i + 5]), AsByte(info[i + 6]), AsByte(info[i + 7]))
  }

  lemma PackedHalves(b0: bv8, b1: bv8, b2: bv8, b3: bv8, b4: bv8, b5: bv8, b6: bv8, b7: bv8)
    ensures var w := HalfWord(Packed(b0, b1, b2, b3, b4, b5, b6, b7));
            && ByteOf(w, 0) == Half(b0) && ByteOf(w, 1) == Half(b1) && ByteOf(w, 2) == Half(b2) && ByteOf(w, 3) == Half(b3)
            && ByteOf(w, 4) == Half(b4) && ByteOf(w, 5) == Half(b5) && ByteOf(w, 6) == Half(b6) && ByteOf(w, 7) == Half(b7)
  {
  }

  /** No bit of one byte gets into another: the shift and the mask halve each of the eight numbers. */
  lemma WordHalvesEachByte(info: seq<int>, i: nat, k: nat)
    requires i + 8 <= |info| && k < 8 && forall m :: i <= m < i + 8 ==> 0 <= info[m] <= 0xFF
    ensures ByteOf(HalfWord(Loaded(info, i)), k) as int == info[i + k] / 2
  {
    hide Packed, ByteOf, AsByte, HalfWord, Half;
    PackedHalves(AsByte(info[i]), AsByte(info[i + 1]), AsByte(info[i + 2]), AsByte(info[i + 3]),
      AsByte(info[i + 4]), AsByte(info[i + 5]), AsByte(info[i + 6]), AsByte(info[i + 7]));
    assert k == 0 || k == 1 || k == 2 || k == 3 || k == 4 || k == 5 || k == 6 || k == 7;
  }
}
